/** How many free pages make a sequence of small mappings, and boot's in particular, succeed. */
module BootRoom {
  import opened PageFrame
  import opened Sv39
  import opened Sv39Map
  import opened Sv39Unmap
  import opened BootMap

  /** The tables missing on the way down from table `p` at level `k`. */
  function Missing(mem: map<nat, seq<nat>>, p: nat, k: nat, va: nat): (n: nat)
    requires k <= 2
    ensures n <= k
    decreases k
  {
    if k > 0 && p in mem && |mem[p]| == 512 && IsValid(mem[p][Vpn(va, k)])
    then Missing(mem, PageOf(mem[p][Vpn(va, k)]), k - 1, va)
    else k
  }

  /** The tables a call can need beyond those of the call before it. */
  function Step(va: nat, next: nat): nat {
    if Vpn(va, 2) != Vpn(next, 2) then 2 else if Vpn(va, 1) != Vpn(next, 1) then 1 else 0
  }

  function Climb(calls: seq<MapCall>): nat
    decreases calls
  {
    if |calls| <= 1 then 0 else Step(calls[0].va, calls[1].va) + Climb(calls[1..])
  }

  /** The first `room` descriptors name RAM pages. */
  ghost predicate Room(h: Phys, room: nat) {
    room <= |h.desc| && forall q :: h.base <= q < h.base + room ==> q in h.mem
  }

  // ---------------------------------------------------------------- one call

  lemma LeafWritten(h: Phys, p: nat, va: nat, leaf: nat, room: nat)
    requires Room(h, room) && p in h.mem && |h.mem[p]| == 512
    ensures var r := MapAt(h, p, 0, va, leaf, 0); r.Done? && Room(r.value, room) && r.value.desc == h.desc
  {
  }

  /** With a free page for every missing table the call succeeds, and takes no more than those. */
  lemma {:induction false} MapWithRoom(h: Phys, root: nat, tree: Tree, p: nat, k: nat, va: nat, leaf: nat, room: nat)
    requires Shaped(h, root, tree) && p in tree && tree[p].level == k && k <= 2 && Reaches(h.mem, root, 2, va, p, k)
    requires PathClear(h.mem, p, k, va, 0) && Room(h, room) && FreeBelow(h.desc, room) >= Missing(h.mem, p, k, va)
    ensures var r := MapAt(h, p, k, va, leaf, 0);
      && r.Done? && Room(r.value, room)
      && FreeBelow(r.value.desc, room) + Missing(h.mem, p, k, va) >= FreeBelow(h.desc, room)
    decreases k
  {
    assert p in h.mem && |h.mem[p]| == 512 by { assert OwnedPage(h, p); }
    assert Room(h, room) <==> room <= |h.desc| && forall q :: h.base <= q < h.base + room ==> q in h.mem;
    hide Shaped, Reaches, PathClear, MapAt, Vpn, IsValid, PageOf, FreeBelow, OwnedPage;
    if k == 0 {
      LeafWritten(h, p, va, leaf, room);
    } else if IsValid(h.mem[p][Vpn(va, k)]) {
      StepDown(h, root, tree, p, k, va, leaf, 0);
      MapWithRoom(h, root, tree, PageOf(h.mem[p][Vpn(va, k)]), k - 1, va, leaf, room);
    } else {
      var h1, page, tree1 := GrowWithRoom(h, root, tree, p, k, va, leaf, 0, room);
      MapWithRoom(h1, root, tree1, page, k - 1, va, leaf, room);
    }
  }

  /** An address decided at level 0 has all its tables. */
  lemma {:induction false} DecidedHasTables(mem: map<nat, seq<nat>>, p: nat, k: nat, va: nat)
    requires k <= 2 && Lookup(mem, p, k, va).Leaf? && Lookup(mem, p, k, va).level == 0
    ensures Missing(mem, p, k, va) == 0
    decreases k
  {
    if k > 0 {
      DecidedHasTables(mem, PageOf(mem[p][Vpn(va, k)]), k - 1, va);
    }
  }

  lemma MissingNear(mem: map<nat, seq<nat>>, root: nat, va: nat, next: nat)
    requires Missing(mem, root, 2, va) == 0
    ensures Missing(mem, root, 2, next) <= Step(va, next)
  {
    hide Vpn, IsValid, PageOf;
    var t := PageOf(mem[root][Vpn(va, 2)]);
    assert Missing(mem, root, 2, va) == Missing(mem, t, 1, va);
    assert Missing(mem, t, 1, va) == Missing(mem, PageOf(mem[t][Vpn(va, 1)]), 0, va);
    if Vpn(va, 2) == Vpn(next, 2) {
      assert Missing(mem, root, 2, next) == Missing(mem, t, 1, next);
    }
  }

  /** One small call on a tree of small leaves. */
  lemma CallWithRoom(h: Phys, root: nat, tree: Tree, c: MapCall, room: nat) returns (h1: Phys, tree1: Tree)
    requires Shaped(h, root, tree) && SmallLeaves(h.mem, root) && c.level == 0 && LeafFlags(c.bits)
    requires Room(h, room) && FreeBelow(h.desc, room) >= Missing(h.mem, root, 2, c.va)
    ensures Map(h, root, c.va, c.pa, c.bits, c.level) == Done(h1)
    ensures Shaped(h1, root, tree1) && SmallLeaves(h1.mem, root) && Room(h1, room)
    ensures Missing(h1.mem, root, 2, c.va) == 0
    ensures FreeBelow(h1.desc, room) + Missing(h.mem, root, 2, c.va) >= FreeBelow(h.desc, room)
  {
    var leaf := LeafPte(c.pa, c.bits);
    assert Reaches(h.mem, root, 2, c.va, root, 2);
    assert Map(h, root, c.va, c.pa, c.bits, c.level) == MapAt(h, root, 2, c.va, leaf, 0);
    hide Shaped, Lookup, PathClear, Map, MapAt, LeafFlags, LeafPte, Vpn, Unit, FreeBelow, Missing, Room, Reaches;
    RootLevel(h, root, tree);
    PathClearFromLookup(h, root, tree, root, 2, c.va, 0);
    MapWithRoom(h, root, tree, root, 2, c.va, leaf, room);
    h1, tree1 := MapTranslates(h, root, tree, c.va, c.pa, c.bits, c.level);
    assert SameRegion(c.va, c.va, 0);
    DecidedHasTables(h1.mem, root, 2, c.va);
  }

  // ---------------------------------------------------------------- many calls

  /** Small calls in any order succeed when there is a free page for each table missing for the first call and for each
      table a call can need beyond its predecessor's. */
  lemma {:induction false} MapAllSucceeds(h: Phys, root: nat, tree: Tree, calls: seq<MapCall>, room: nat)
    requires Shaped(h, root, tree) && SmallLeaves(h.mem, root) && Room(h, room)
    requires forall c :: c in calls ==> c.level == 0 && LeafFlags(c.bits)
    requires calls != [] ==> FreeBelow(h.desc, room) >= Missing(h.mem, root, 2, calls[0].va) + Climb(calls)
    ensures MapAll(h, root, calls).Done?
    decreases calls
  {
    hide Shaped, SmallLeaves, Room, LeafFlags, FreeBelow, Missing, Map, Step;
    if calls != [] {
      var c := calls[0];
      var h1, tree1 := CallWithRoom(h, root, tree, c, room);
      if |calls| > 1 {
        MissingNear(h1.mem, root, c.va, calls[1].va);
      }
      MapAllSucceeds(h1, root, tree1, calls[1..], room);
    }
  }

  // ---------------------------------------------------------------- calls that rise through memory

  /** Addresses between two pages, never going back. */
  ghost predicate Rising(calls: seq<MapCall>, lo: nat, hi: nat) {
    && (forall i :: 0 <= i < |calls| ==> lo <= calls[i].va <= hi)
    && forall i, j :: 0 <= i < j < |calls| ==> calls[i].va <= calls[j].va
  }

  /** The 2 MiB and 1 GiB boundaries between two addresses. */
  function Boundaries(a: nat, b: nat): int { (b / Unit(1) - a / Unit(1)) + (b / Unit(2) - a / Unit(2)) }

  lemma StepBound(a: nat, b: nat)
    requires a <= b < TWO39
    ensures Step(a, b) <= Boundaries(a, b)
  {
    SameRegionVpn(a, b, 2);
    SameRegionVpn(a, b, 1);
    hide Vpn;
    assert a / Unit(1) <= b / Unit(1) && a / Unit(2) <= b / Unit(2);
    SmallerRegion(a, b);
  }

  lemma SmallerRegion(a: nat, b: nat)
    ensures a / Unit(2) != b / Unit(2) ==> a / Unit(1) != b / Unit(1)
  {
    Nested(a, Unit(1), a / Unit(2));
    Nested(b, Unit(1), b / Unit(2));
  }

  lemma {:induction false} RisingClimb(calls: seq<MapCall>, lo: nat, hi: nat)
    requires Rising(calls, lo, hi) && lo <= hi < TWO39
    ensures Climb(calls) <= Boundaries(if calls == [] then lo else calls[0].va, hi)
    decreases calls
  {
    if |calls| > 1 {
      RisingClimb(calls[1..], lo, hi);
      StepBound(calls[0].va, calls[1].va);
    }
  }

  lemma {:induction false} ClimbJoin(a: seq<MapCall>, b: seq<MapCall>)
    ensures Climb(a + b) <= Climb(a) + 2 + Climb(b)
    decreases a
  {
    if |a| == 0 {
      assert a + b == b;
    } else if |a| == 1 {
      assert (a + b)[1..] == b;
    } else {
      assert (a + b)[1..] == a[1..] + b;
      ClimbJoin(a[1..], b);
    }
  }

  lemma RisingJoin(a: seq<MapCall>, b: seq<MapCall>, lo: nat, mid: nat, hi: nat)
    requires Rising(a, lo, mid) && Rising(b, mid, hi) && lo <= mid <= hi
    ensures Rising(a + b, lo, hi)
  {
  }

  lemma {:induction false} RangeRises(start: nat, end: nat, bits: nat, lo: nat, hi: nat)
    requires start % PAGE_SIZE == 0 && end % PAGE_SIZE == 0 && lo <= start && end <= hi + PAGE_SIZE
    ensures Rising(IdRange(start, end, bits), lo, hi)
    ensures forall i :: 0 <= i < |IdRange(start, end, bits)| ==> start <= IdRange(start, end, bits)[i].va
    decreases end - start
  {
    if start < end {
      RangeRises(start + PAGE_SIZE, end, bits, lo, hi);
    }
  }

  /** The last page of a section that ends at `end`. */
  function LastPage(end: nat): (r: nat)
    requires end > 0
    ensures r % PAGE_SIZE == 0 && r < end <= r + PAGE_SIZE
  {
    PageUp(end) - PAGE_SIZE
  }

  lemma SectionRises(start: nat, end: nat, bits: nat, lo: nat, hi: nat)
    requires end > 0 && lo <= PageDown(start) && LastPage(end) <= hi
    ensures Rising(SectionCalls(start, end, bits), lo, hi)
  {
    RangeRises(PageDown(start), PageUp(end), bits, lo, hi);
  }

  /** A section ends before the next one begins, up to a shared page. */
  lemma SectionsFollow(end: nat, next: nat)
    requires 0 < end <= next
    ensures LastPage(end) <= PageDown(next)
  {
  }

  // ---------------------------------------------------------------- boot

  /** The boundary pages of the RAM sections. */
  lemma SectionStarts(s: Sections)
    requires LinkerOrder(s)
    ensures PageDown(s.textStart) <= PageDown(s.rodataStart) <= PageDown(s.dataStart)
    ensures PageDown(s.dataStart) <= PageDown(s.bssStart) <= PageDown(s.stackStart)
  {
    PageMono(s.textStart, s.rodataStart);
    PageMono(s.rodataStart, s.dataStart);
    PageMono(s.dataStart, s.bssStart);
    PageMono(s.bssStart, s.stackStart);
  }

  lemma SectionEnds(s: Sections)
    requires LinkerOrder(s)
    ensures LastPage(s.textEnd) <= PageDown(s.rodataStart) && LastPage(s.rodataEnd) <= PageDown(s.dataStart)
    ensures LastPage(s.dataEnd) <= PageDown(s.bssStart) && LastPage(s.bssEnd) <= PageDown(s.stackStart)
  {
    SectionsFollow(s.textEnd, s.rodataStart);
    SectionsFollow(s.rodataEnd, s.dataStart);
    SectionsFollow(s.dataEnd, s.bssStart);
    SectionsFollow(s.bssEnd, s.stackStart);
  }

  lemma MemoryEnds(s: Sections)
    requires LinkerOrder(s)
    ensures PageDown(s.stackStart) <= LastPage(s.stackEnd) <= PageDown(s.heapStart)
    ensures LastPage(s.stackEnd) <= LastPage(s.memoryEnd) < TWO39
  {
    SectionsFollow(s.stackEnd, s.heapStart);
    PageMono(s.stackEnd, s.memoryEnd);
  }

  function RamCalls(s: Sections): seq<MapCall> {
    SectionCalls(s.textStart, s.textEnd, RX)
    + SectionCalls(s.rodataStart, s.rodataEnd, RO)
    + SectionCalls(s.dataStart, s.dataEnd, RW)
    + SectionCalls(s.bssStart, s.bssEnd, RW)
    + SectionCalls(s.stackStart, s.stackEnd, RW)
    + SectionCalls(s.heapStart, s.memoryEnd, RW)
  }

  lemma RamRises(s: Sections)
    requires LinkerOrder(s)
    ensures Rising(RamCalls(s), PageDown(s.textStart), LastPage(s.memoryEnd))
  {
    hide PageDown, LastPage, Rising, SectionCalls;
    SectionStarts(s);
    SectionEnds(s);
    MemoryEnds(s);
    var m0, m1, m2 := PageDown(s.textStart), PageDown(s.rodataStart), PageDown(s.dataStart);
    var m3, m4, m5, m6 := PageDown(s.bssStart), PageDown(s.stackStart), LastPage(s.stackEnd), LastPage(s.memoryEnd);
    var c1, c2 := SectionCalls(s.textStart, s.textEnd, RX), SectionCalls(s.rodataStart, s.rodataEnd, RO);
    var c3, c4 := SectionCalls(s.dataStart, s.dataEnd, RW), SectionCalls(s.bssStart, s.bssEnd, RW);
    var c5, c6 := SectionCalls(s.stackStart, s.stackEnd, RW), SectionCalls(s.heapStart, s.memoryEnd, RW);
    SectionRises(s.textStart, s.textEnd, RX, m0, m1);
    SectionRises(s.rodataStart, s.rodataEnd, RO, m1, m2);
    SectionRises(s.dataStart, s.dataEnd, RW, m2, m3);
    SectionRises(s.bssStart, s.bssEnd, RW, m3, m4);
    SectionRises(s.stackStart, s.stackEnd, RW, m4, m5);
    SectionRises(s.heapStart, s.memoryEnd, RW, m5, m6);
    RisingJoin(c1, c2, m0, m1, m2);
    RisingJoin(c1 + c2, c3, m0, m2, m3);
    RisingJoin(c1 + c2 + c3, c4, m0, m3, m4);
    RisingJoin(c1 + c2 + c3 + c4, c5, m0, m4, m5);
    RisingJoin(c1 + c2 + c3 + c4 + c5, c6, m0, m5, m6);
  }

  function DeviceCalls(): seq<MapCall> {
    SectionCalls(UART, UART + PAGE_SIZE, RW) + SectionCalls(VIRTIO_START, VIRTIO_END + VIRTIO_STRIDE, RW)
  }

  lemma DevicesRise()
    ensures Rising(DeviceCalls(), UART, VIRTIO_END)
  {
    assert LastPage(UART + PAGE_SIZE) == UART && LastPage(VIRTIO_END + VIRTIO_STRIDE) == VIRTIO_END;
    assert PageDown(UART) == UART && PageDown(VIRTIO_START) == VIRTIO_START;
    hide PageDown, LastPage, Rising, SectionCalls;
    SectionRises(UART, UART + PAGE_SIZE, RW, UART, VIRTIO_START);
    SectionRises(VIRTIO_START, VIRTIO_END + VIRTIO_STRIDE, RW, VIRTIO_START, VIRTIO_END);
    RisingJoin(SectionCalls(UART, UART + PAGE_SIZE, RW), SectionCalls(VIRTIO_START, VIRTIO_END + VIRTIO_STRIDE, RW),
               UART, VIRTIO_START, VIRTIO_END);
  }

  /** The tables boot needs below the root: two for RAM and one more for every 2 MiB and 1 GiB boundary inside it, and
      two for the devices. */
  function BootNeed(s: Sections): int
    requires LinkerOrder(s)
  {
    4 + Boundaries(s.textStart, s.memoryEnd - 1)
  }

  lemma PageBoundaries(a: nat, b: nat)
    requires b > 0
    ensures Boundaries(PageDown(a), LastPage(b)) == Boundaries(a, b - 1)
  {
    SamePage(a, PageDown(a));
    SamePage(b - 1, LastPage(b));
  }

  lemma SamePage(x: nat, page: nat)
    requires page % PAGE_SIZE == 0 && page <= x < page + PAGE_SIZE
    ensures x / Unit(1) == page / Unit(1) && x / Unit(2) == page / Unit(2)
  {
    assert x / Unit(0) == page / Unit(0);
    Nested(x, Unit(0), x / Unit(1));
    Nested(page, Unit(0), page / Unit(1));
    Nested(x, Unit(1), x / Unit(2));
    Nested(page, Unit(1), page / Unit(2));
  }

  lemma RamClimb(s: Sections)
    requires LinkerOrder(s)
    ensures Climb(RamCalls(s)) <= Boundaries(s.textStart, s.memoryEnd - 1)
  {
    assert s.memoryEnd > 0;
    hide *;
    RamRises(s);
    SectionStarts(s);
    MemoryEnds(s);
    PageBoundaries(s.textStart, s.memoryEnd);
    RisingClimb(RamCalls(s), PageDown(s.textStart), LastPage(s.memoryEnd));
    LessAbove(RamCalls(s), PageDown(s.textStart), LastPage(s.memoryEnd));
  }

  lemma DeviceClimb()
    ensures Climb(DeviceCalls()) == 0
  {
    DevicesRise();
    assert Boundaries(UART, VIRTIO_END) == 0 && UART <= VIRTIO_END < TWO39;
    hide *;
    RisingClimb(DeviceCalls(), UART, VIRTIO_END);
    LessAbove(DeviceCalls(), UART, VIRTIO_END);
  }

  lemma BootClimb(s: Sections)
    requires LinkerOrder(s)
    ensures Climb(BootCalls(s)) + 2 <= BootNeed(s)
  {
    var a, b := RamCalls(s), DeviceCalls();
    hide SectionCalls, Climb, Boundaries;
    assert BootCalls(s) == a + b;
    hide RamCalls, DeviceCalls, BootCalls;
    RamClimb(s);
    DeviceClimb();
    ClimbJoin(a, b);
  }

  /** Starting higher leaves fewer boundaries. */
  lemma LessAbove(calls: seq<MapCall>, lo: nat, hi: nat)
    requires Rising(calls, lo, hi)
    ensures Boundaries(if calls == [] then lo else calls[0].va, hi) <= Boundaries(lo, hi)
  {
  }

  /** With that many free pages in RAM, boot maps everything: none of its calls stops. */
  lemma BootSucceeds(h: Phys, root: nat, s: Sections, room: nat)
    requires PhysOk(h) && OwnedPage(h, root) && h.mem[root] == ZeroPage() && LinkerOrder(s)
    requires Room(h, room) && FreeBelow(h.desc, room) >= BootNeed(s)
    ensures MapAll(h, root, BootCalls(s)).Done?
  {
    var tree := FreshRoot(h, root);
    assert SmallLeaves(h.mem, root) by { hide Vpn; }
    hide *;
    BootCallsSmall(s);
    BootClimb(s);
    MapAllSucceeds(h, root, tree, BootCalls(s), room);
  }

  /** With that many free pages in RAM, boot ends with exactly the sections and devices mapped to themselves. */
  lemma BootMaps(h: Phys, root: nat, s: Sections, room: nat, va: nat) returns (h1: Phys)
    requires PhysOk(h) && OwnedPage(h, root) && h.mem[root] == ZeroPage() && LinkerOrder(s) && va < TWO39
    requires Room(h, room) && FreeBelow(h.desc, room) >= BootNeed(s)
    ensures MapAll(h, root, BootCalls(s)) == Done(h1)
    ensures V2p(h1.mem, root, va) == if Intended(s, va).Some? then Mapped(va) else Unmapped
  {
    hide *;
    BootSucceeds(h, root, s, room);
    h1 := BootIdentity(h, root, s, va);
  }
}
