/** The identity mapping that boot installs: every linker section and the MMIO windows, page by page. */
module BootMap {
  import opened Bits
  import opened PageFrame
  import opened Sv39
  import opened Sv39Map
  import opened Sv39Unmap

  const READ: nat := 2
  const WRITE: nat := 4
  const EXECUTE: nat := 8
  const ACCESSED: nat := 64
  const DIRTY: nat := 128
  const RX: nat := READ + EXECUTE + ACCESSED
  const RO: nat := READ + ACCESSED
  const RW: nat := READ + WRITE + ACCESSED + DIRTY

  const UART: nat := 0x1000_0000
  const VIRTIO_START: nat := 0x1000_1000
  const VIRTIO_END: nat := 0x1000_8000
  const VIRTIO_STRIDE: nat := 0x1000

  function PageDown(x: nat): (r: nat)
    ensures r % PAGE_SIZE == 0 && r <= x < r + PAGE_SIZE
  {
    x / PAGE_SIZE * PAGE_SIZE
  }

  /** The section boundaries the linker script provides. */
  datatype Sections = Sections(
    textStart: nat, textEnd: nat, rodataStart: nat, rodataEnd: nat, dataStart: nat, dataEnd: nat,
    bssStart: nat, bssEnd: nat, stackStart: nat, stackEnd: nat, heapStart: nat, memoryEnd: nat)

  /** RAM starts above the devices, the sections follow each other, rodata and data start on a page. */
  predicate LinkerOrder(s: Sections) {
    && 0x8000_0000 <= s.textStart <= s.textEnd <= s.rodataStart <= s.rodataEnd <= s.dataStart <= s.dataEnd
    && s.dataEnd <= s.bssStart <= s.bssEnd == s.stackStart
    && s.stackStart < s.stackEnd == s.heapStart <= s.memoryEnd <= 0x40_0000_0000
    && s.rodataStart % PAGE_SIZE == 0 && s.dataStart % PAGE_SIZE == 0
  }

  /** Identity calls for the pages of `[start, end)`. */
  function IdRange(start: nat, end: nat, bits: nat): (calls: seq<MapCall>)
    decreases end - start
  {
    if start >= end then [] else [MapCall(start, start, bits, 0)] + IdRange(start + PAGE_SIZE, end, bits)
  }

  /** A section is rounded outward to whole pages. */
  function SectionCalls(start: nat, end: nat, bits: nat): seq<MapCall> {
    IdRange(PageDown(start), PageUp(end), bits)
  }

  function BootCalls(s: Sections): seq<MapCall> {
    SectionCalls(s.textStart, s.textEnd, RX)
    + SectionCalls(s.rodataStart, s.rodataEnd, RO)
    + SectionCalls(s.dataStart, s.dataEnd, RW)
    + SectionCalls(s.bssStart, s.bssEnd, RW)
    + SectionCalls(s.stackStart, s.stackEnd, RW)
    + SectionCalls(s.heapStart, s.memoryEnd, RW)
    + SectionCalls(UART, UART + PAGE_SIZE, RW)
    + SectionCalls(VIRTIO_START, VIRTIO_END + VIRTIO_STRIDE, RW)
  }

  // ---------------------------------------------------------------- last writers

  lemma {:induction false} LastWriterConcat(a: seq<MapCall>, b: seq<MapCall>, va: nat)
    ensures LastWriter(a + b, va) == if LastWriter(b, va).Some? then LastWriter(b, va) else LastWriter(a, va)
    decreases |b|
  {
    if b == [] {
      assert a + b == a;
    } else {
      var n := |b|;
      assert (a + b)[|a + b| - 1] == b[n-1];
      assert (a + b)[..|a + b| - 1] == a + b[..n-1];
      LastWriterConcat(a, b[..n-1], va);
    }
  }

  predicate InRange(start: nat, end: nat, va: nat) { start <= PageDown(va) < end }

  lemma CoversPage(start: nat, bits: nat, va: nat)
    requires start % PAGE_SIZE == 0 && start < TWO39 && va < TWO39
    ensures Covers(MapCall(start, start, bits, 0), va) <==> PageDown(va) == start
  {
  }

  lemma NextPage(start: nat, end: nat, va: nat)
    requires start % PAGE_SIZE == 0 && end % PAGE_SIZE == 0 && start < end
    ensures InRange(start, end, va) <==> PageDown(va) == start || InRange(start + PAGE_SIZE, end, va)
    ensures (start + PAGE_SIZE) % PAGE_SIZE == 0 && start + PAGE_SIZE <= end
    ensures PageDown(va) == start ==> !InRange(start + PAGE_SIZE, end, va)
  {
  }

  lemma RangeCons(start: nat, end: nat, bits: nat)
    requires start < end
    ensures IdRange(start, end, bits) != [] && IdRange(start, end, bits)[0] == MapCall(start, start, bits, 0)
    ensures IdRange(start, end, bits)[1..] == IdRange(start + PAGE_SIZE, end, bits)
  {
  }

  lemma {:induction false} LastWriterRange(start: nat, end: nat, bits: nat, va: nat)
    requires start % PAGE_SIZE == 0 && end % PAGE_SIZE == 0 && end <= TWO39 && va < TWO39
    ensures LastWriter(IdRange(start, end, bits), va) ==
      if InRange(start, end, va) then Some(MapCall(PageDown(va), PageDown(va), bits, 0)) else None
    decreases end - start
  {
    if start < end {
      var calls := IdRange(start, end, bits);
      hide LastWriter, IdRange, Covers, InRange, PageDown;
      RangeCons(start, end, bits);
      NextPage(start, end, va);
      LastWriterCons(calls, va);
      LastWriterRange(start + PAGE_SIZE, end, bits, va);
      CoversPage(start, bits, va);
    }
  }

  lemma LastWriterSection(start: nat, end: nat, bits: nat, va: nat)
    requires end <= TWO39 && va < TWO39
    ensures LastWriter(SectionCalls(start, end, bits), va) ==
      if InRange(PageDown(start), PageUp(end), va) then Some(MapCall(PageDown(va), PageDown(va), bits, 0)) else None
  {
    LastWriterRange(PageDown(start), PageUp(end), bits, va);
  }

  /** The permissions boot intends for the page of an address, if any. */
  function Intended(s: Sections, va: nat): Option<nat> {
    if InRange(PageDown(s.textStart), PageUp(s.textEnd), va) then Some(RX)
    else if InRange(PageDown(s.rodataStart), PageUp(s.rodataEnd), va) then Some(RO)
    else if InRange(PageDown(s.dataStart), PageUp(s.dataEnd), va)
         || InRange(PageDown(s.bssStart), PageUp(s.bssEnd), va)
         || InRange(PageDown(s.stackStart), PageUp(s.stackEnd), va)
         || InRange(PageDown(s.heapStart), PageUp(s.memoryEnd), va)
         || InRange(UART, VIRTIO_END + VIRTIO_STRIDE, va) then Some(RW)
    else None
  }

  /** The section that writes a page last is the one that owns it. */
  lemma SectionsApart(s: Sections, va: nat)
    requires LinkerOrder(s) && va < TWO39
    ensures InRange(PageDown(s.textStart), PageUp(s.textEnd), va) ==>
      && !InRange(PageDown(s.rodataStart), PageUp(s.rodataEnd), va)
      && !InRange(PageDown(s.dataStart), PageUp(s.memoryEnd), va)
    ensures InRange(PageDown(s.rodataStart), PageUp(s.rodataEnd), va) ==>
      !InRange(PageDown(s.dataStart), PageUp(s.memoryEnd), va)
    ensures InRange(UART, VIRTIO_END + VIRTIO_STRIDE, va) ==> !InRange(PageDown(s.textStart), PageUp(s.memoryEnd), va)
  {
    assert PageUp(s.textEnd) <= s.rodataStart == PageDown(s.rodataStart);
    assert PageUp(s.rodataEnd) <= s.dataStart == PageDown(s.dataStart);
  }

  lemma WritableInside(s: Sections, va: nat)
    requires LinkerOrder(s)
    ensures InRange(PageDown(s.dataStart), PageUp(s.dataEnd), va) || InRange(PageDown(s.bssStart), PageUp(s.bssEnd), va)
         || InRange(PageDown(s.stackStart), PageUp(s.stackEnd), va)
         || InRange(PageDown(s.heapStart), PageUp(s.memoryEnd), va)
        ==> InRange(PageDown(s.dataStart), PageUp(s.memoryEnd), va)
    ensures InRange(PageDown(s.rodataStart), PageUp(s.rodataEnd), va)
         || InRange(PageDown(s.dataStart), PageUp(s.memoryEnd), va)
        ==> InRange(PageDown(s.textStart), PageUp(s.memoryEnd), va)
    ensures InRange(PageDown(s.textStart), PageUp(s.textEnd), va) ==>
      InRange(PageDown(s.textStart), PageUp(s.memoryEnd), va)
  {
    hide PageDown, PageUp;
    PageMono(s.textStart, s.rodataStart);
    PageMono(s.textStart, s.dataStart);
    PageMono(s.dataStart, s.bssStart);
    PageMono(s.dataStart, s.stackStart);
    PageMono(s.dataStart, s.heapStart);
    PageMono(s.textEnd, s.memoryEnd);
    PageMono(s.rodataEnd, s.memoryEnd);
    PageMono(s.dataEnd, s.memoryEnd);
    PageMono(s.bssEnd, s.memoryEnd);
    PageMono(s.stackEnd, s.memoryEnd);
  }

  lemma PageMono(a: nat, b: nat)
    requires a <= b
    ensures PageDown(a) <= PageDown(b) && PageUp(a) <= PageUp(b)
  {
  }

  lemma DeviceRanges(va: nat)
    ensures InRange(UART, VIRTIO_END + VIRTIO_STRIDE, va) <==>
      || InRange(PageDown(UART), PageUp(UART + PAGE_SIZE), va)
      || InRange(PageDown(VIRTIO_START), PageUp(VIRTIO_END + VIRTIO_STRIDE), va)
  {
  }

  /** What the calls of the eight sections, in order, write last. */
  lemma ConcatWriters(s: Sections, va: nat)
    ensures var w := (start: nat, end: nat, bits: nat) => LastWriter(SectionCalls(start, end, bits), va);
      LastWriter(BootCalls(s), va) ==
        OrElse(w(VIRTIO_START, VIRTIO_END + VIRTIO_STRIDE, RW), OrElse(w(UART, UART + PAGE_SIZE, RW),
        OrElse(w(s.heapStart, s.memoryEnd, RW), OrElse(w(s.stackStart, s.stackEnd, RW),
        OrElse(w(s.bssStart, s.bssEnd, RW), OrElse(w(s.dataStart, s.dataEnd, RW),
        OrElse(w(s.rodataStart, s.rodataEnd, RO), w(s.textStart, s.textEnd, RX))))))))
  {
    hide LastWriter, SectionCalls;
    var c1 := SectionCalls(s.textStart, s.textEnd, RX);
    var c2 := SectionCalls(s.rodataStart, s.rodataEnd, RO);
    var c3 := SectionCalls(s.dataStart, s.dataEnd, RW);
    var c4 := SectionCalls(s.bssStart, s.bssEnd, RW);
    var c5 := SectionCalls(s.stackStart, s.stackEnd, RW);
    var c6 := SectionCalls(s.heapStart, s.memoryEnd, RW);
    var c7 := SectionCalls(UART, UART + PAGE_SIZE, RW);
    var c8 := SectionCalls(VIRTIO_START, VIRTIO_END + VIRTIO_STRIDE, RW);
    LastWriterConcat(c1 + c2 + c3 + c4 + c5 + c6 + c7, c8, va);
    LastWriterConcat(c1 + c2 + c3 + c4 + c5 + c6, c7, va);
    LastWriterConcat(c1 + c2 + c3 + c4 + c5, c6, va);
    LastWriterConcat(c1 + c2 + c3 + c4, c5, va);
    LastWriterConcat(c1 + c2 + c3, c4, va);
    LastWriterConcat(c1 + c2, c3, va);
    LastWriterConcat(c1, c2, va);
  }

  function OrElse(a: Option<MapCall>, b: Option<MapCall>): Option<MapCall> { if a.Some? then a else b }

  /** Outward rounding and last-writer-wins leave every page with the permissions of its own section. */
  lemma BootWriters(s: Sections, va: nat)
    requires LinkerOrder(s) && va < TWO39
    ensures LastWriter(BootCalls(s), va) ==
      match Intended(s, va)
      case Some(bits) => Some(MapCall(PageDown(va), PageDown(va), bits, 0))
      case None => None
  {
    SectionsApart(s, va);
    WritableInside(s, va);
    DeviceRanges(va);
    hide LastWriter, SectionCalls, BootCalls, InRange, PageUp, PageDown;
    ConcatWriters(s, va);
    LastWriterSection(s.textStart, s.textEnd, RX, va);
    LastWriterSection(s.rodataStart, s.rodataEnd, RO, va);
    LastWriterSection(s.dataStart, s.dataEnd, RW, va);
    LastWriterSection(s.bssStart, s.bssEnd, RW, va);
    LastWriterSection(s.stackStart, s.stackEnd, RW, va);
    LastWriterSection(s.heapStart, s.memoryEnd, RW, va);
    LastWriterSection(UART, UART + PAGE_SIZE, RW, va);
    LastWriterSection(VIRTIO_START, VIRTIO_END + VIRTIO_STRIDE, RW, va);
  }

  lemma AddrInRange(start: nat, end: nat, va: nat)
    ensures start <= va < end ==> InRange(PageDown(start), PageUp(end), va)
  {
  }

  /** Every byte of a section and of the device windows gets the permissions named for it. */
  lemma SectionPermissions(s: Sections, va: nat)
    requires LinkerOrder(s) && va < TWO39
    ensures s.textStart <= va < s.textEnd ==> Intended(s, va) == Some(RX)
    ensures s.rodataStart <= va < s.rodataEnd ==> Intended(s, va) == Some(RO)
    ensures s.dataStart <= va < s.dataEnd || s.bssStart <= va < s.bssEnd || s.stackStart <= va < s.memoryEnd
        ==> Intended(s, va) == Some(RW)
    ensures UART <= va < VIRTIO_END + VIRTIO_STRIDE ==> Intended(s, va) == Some(RW)
  {
    SectionsApart(s, va);
    WritableInside(s, va);
    assert UART <= va < VIRTIO_END + VIRTIO_STRIDE ==> InRange(UART, VIRTIO_END + VIRTIO_STRIDE, va);
    hide InRange, PageDown, PageUp;
    AddrInRange(s.textStart, s.textEnd, va);
    AddrInRange(s.rodataStart, s.rodataEnd, va);
    AddrInRange(s.dataStart, s.dataEnd, va);
    AddrInRange(s.bssStart, s.bssEnd, va);
    AddrInRange(s.stackStart, s.stackEnd, va);
    AddrInRange(s.heapStart, s.memoryEnd, va);
  }

  // ---------------------------------------------------------------- the tables boot builds

  /** Small leaves only: no address is decided above level 0. */
  ghost predicate SmallLeaves(mem: map<nat, seq<nat>>, root: nat) {
    forall va: nat :: Lookup(mem, root, 2, va).Leaf? ==> Lookup(mem, root, 2, va).level == 0
  }

  lemma {:induction false} PathClearFromLookup(h: Phys, root: nat, tree: Tree, p: nat, k: nat, va: nat, level: nat)
    requires Shaped(h, root, tree) && p in tree && tree[p].level == k
    requires Lookup(h.mem, p, k, va).Leaf? ==> Lookup(h.mem, p, k, va).level <= level
    ensures PathClear(h.mem, p, k, va, level)
    decreases k
  {
    assert OwnedPage(h, p);
    var e := h.mem[p][Vpn(va, k)];
    assert GoodEntry(h, tree, p, Vpn(va, k));
    if k > level && IsBranch(e) {
      PathClearFromLookup(h, root, tree, PageOf(e), k - 1, va, level);
    }
  }

  lemma {:induction false} SmallCallsNeverThroughLeaf(h: Phys, root: nat, tree: Tree, calls: seq<MapCall>)
    requires Shaped(h, root, tree) && SmallLeaves(h.mem, root)
    requires forall c :: c in calls ==> c.level == 0 && LeafFlags(c.bits)
    ensures NeverThroughLeaf(h, root, calls)
    decreases calls
  {
    hide Shaped, Lookup, PathClear, Map, LeafFlags, LeafPte, Vpn, Unit;
    if calls != [] {
      var c := calls[0];
      RootLevel(h, root, tree);
      PathClearFromLookup(h, root, tree, root, 2, c.va, 0);
      if Map(h, root, c.va, c.pa, c.bits, c.level).Done? {
        var h1, tree1 := MapTranslates(h, root, tree, c.va, c.pa, c.bits, c.level);
        SmallCallsNeverThroughLeaf(h1, root, tree1, calls[1..]);
      }
    }
  }

  lemma RootLevel(h: Phys, root: nat, tree: Tree)
    requires Shaped(h, root, tree)
    ensures root in tree && tree[root].level == 2
  {
  }

  lemma {:induction false} IdRangeCalls(start: nat, end: nat, bits: nat)
    ensures forall c :: c in IdRange(start, end, bits) ==> c.level == 0 && c.bits == bits
    decreases end - start
  {
    if start < end {
      IdRangeCalls(start + PAGE_SIZE, end, bits);
    }
  }

  lemma BootCallsSmall(s: Sections)
    ensures forall c :: c in BootCalls(s) ==> c.level == 0 && LeafFlags(c.bits)
  {
    IdRangeCalls(PageDown(s.textStart), PageUp(s.textEnd), RX);
    IdRangeCalls(PageDown(s.rodataStart), PageUp(s.rodataEnd), RO);
    IdRangeCalls(PageDown(s.dataStart), PageUp(s.dataEnd), RW);
    IdRangeCalls(PageDown(s.bssStart), PageUp(s.bssEnd), RW);
    IdRangeCalls(PageDown(s.stackStart), PageUp(s.stackEnd), RW);
    IdRangeCalls(PageDown(s.heapStart), PageUp(s.memoryEnd), RW);
    IdRangeCalls(PageDown(UART), PageUp(UART + PAGE_SIZE), RW);
    IdRangeCalls(PageDown(VIRTIO_START), PageUp(VIRTIO_END + VIRTIO_STRIDE), RW);
    hide IdRange, PageDown, PageUp;
  }

  /** After boot's calls on a zeroed root, an address below 2^39 is mapped exactly when its page
      belongs to a section or a device window, it is then mapped to itself, and its page has exactly
      the permissions of that section: text is never writable, and nothing writable is executable. */
  lemma BootIdentity(h: Phys, root: nat, s: Sections, va: nat) returns (h1: Phys)
    requires PhysOk(h) && OwnedPage(h, root) && h.mem[root] == ZeroPage()
    requires LinkerOrder(s) && MapAll(h, root, BootCalls(s)).Done? && va < TWO39
    ensures MapAll(h, root, BootCalls(s)) == Done(h1)
    ensures Lookup(h1.mem, root, 2, va) ==
      match Intended(s, va) { case Some(bits) => Leaf(LeafPte(PageDown(va), bits), 0) case None => Hole }
    ensures V2p(h1.mem, root, va) == if Intended(s, va).Some? then Mapped(va) else Unmapped
  {
    var calls := BootCalls(s);
    var tree := FreshRoot(h, root);
    assert forall v: nat :: Lookup(h.mem, root, 2, v) == Hole by { hide Vpn; }
    hide Shaped, Lookup, NeverThroughLeaf, MapAll, Intended, BootCalls, LinkerOrder, LastWriter, LeafPte, PageDown;
    hide LeafFlags;
    BootCallsSmall(s);
    SmallCallsNeverThroughLeaf(h, root, tree, calls);
    var tree1;
    h1, tree1 := MapAllCorrect(h, root, tree, calls);
    BootWriters(s, va);
    assert Lookup(h1.mem, root, 2, va) == Decided(h.mem, root, calls, va);
    if Intended(s, va).Some? {
      IdentityAddr(va, Intended(s, va).value);
    }
  }

  lemma IdentityAddr(va: nat, bits: nat)
    requires va < TWO39 && LeafFlags(bits)
    ensures LeafAddr(LeafPte(PageDown(va), bits), 0, va) == va
  {
    LeafPteFacts(PageDown(va), bits, 0, va);
  }

  /** The permission bits of an entry: R, W, X, U, G, A, D are bits 1 to 7. */
  datatype Permissions = Permissions(r: bool, w: bool, x: bool, u: bool, g: bool, a: bool, d: bool)

  function PermissionsOf(e: nat): Permissions {
    Permissions(e / 2 % 2 == 1, e / 4 % 2 == 1, e / 8 % 2 == 1, e / 16 % 2 == 1, e / 32 % 2 == 1, e / 64 % 2 == 1,
                e / 128 % 2 == 1)
  }

  lemma HighBits(e: nat, w: nat, m: nat, low: nat)
    requires w > 0 && e == 2 * m * w + low
    ensures e / w % 2 == low / w % 2
  {
    var d, r := low / w, low % w;
    assert e == (2 * m + d) * w + r;
    DivModUnique(e, w, 2 * m + d, r);
  }

  lemma LowBits(e: nat, q: nat, low: nat)
    requires e == q * 1024 + low && low < 1024
    ensures PermissionsOf(e) == PermissionsOf(low)
  {
    HighBits(e, 2, 256 * q, low);
    HighBits(e, 4, 128 * q, low);
    HighBits(e, 8, 64 * q, low);
    HighBits(e, 16, 32 * q, low);
    HighBits(e, 32, 16 * q, low);
    HighBits(e, 64, 8 * q, low);
    HighBits(e, 128, 4 * q, low);
  }

  lemma PageEntry(q: nat, bits: nat)
    requires q < 0x800_0000 && bits < 256 && bits % 2 == 0
    ensures LeafPte(q * 4096, bits) == q * 1024 + (bits + 1)
  {
    DivModUnique(q * 4096, TWO56, 0, q * 4096);
    DivModUnique(q * 4096, 0x1000, q, 0);
  }

  /** What boot writes for a page is a valid entry over the page itself, with its flags in the low ten bits. */
  lemma WrittenForm(va: nat, bits: nat)
    requires va < TWO39 && bits in {RX, RO, RW}
    ensures var e := LeafPte(PageDown(va), bits);
      e == va / 4096 * 1024 + (bits + 1) && e % 2 == 1 && e / 1024 == va / 4096
  {
    var q := va / 4096;
    assert PageDown(va) == q * 4096 && q < 0x800_0000 && bits < 256 && bits % 2 == 0;
    hide *;
    PageEntry(q, bits);
    DivModUnique(q * 1024 + (bits + 1), 1024, q, bits + 1);
    DivModUnique(q * 1024 + (bits + 1), 2, q * 512 + bits / 2, 1);
  }

  lemma WrittenBits(va: nat, bits: nat)
    requires va < TWO39 && bits in {RX, RO, RW}
    ensures var p := PermissionsOf(LeafPte(PageDown(va), bits));
      && (bits == RX ==> p == Permissions(true, false, true, false, false, true, false))
      && (bits == RO ==> p == Permissions(true, false, false, false, false, true, false))
      && (bits == RW ==> p == Permissions(true, true, false, false, false, true, true))
  {
    assert PermissionsOf(RX + 1) == Permissions(true, false, true, false, false, true, false);
    assert PermissionsOf(RO + 1) == Permissions(true, false, false, false, false, true, false);
    assert PermissionsOf(RW + 1) == Permissions(true, true, false, false, false, true, true);
    hide LeafPte, PageDown, PermissionsOf;
    WrittenForm(va, bits);
    LowBits(LeafPte(PageDown(va), bits), va / 4096, bits + 1);
  }

  /** After boot no page is both writable and executable. */
  lemma WriteXorExecute(h: Phys, root: nat, s: Sections, va: nat) returns (h1: Phys)
    requires PhysOk(h) && OwnedPage(h, root) && h.mem[root] == ZeroPage()
    requires LinkerOrder(s) && MapAll(h, root, BootCalls(s)).Done? && va < TWO39
    ensures MapAll(h, root, BootCalls(s)) == Done(h1)
    ensures match Lookup(h1.mem, root, 2, va)
      case Leaf(e, _) => !(e / 4 % 2 == 1 && e / 8 % 2 == 1)
      case _ => true
  {
    var bits := Intended(s, va);
    assert bits.Some? ==> bits.value in {RX, RO, RW};
    hide Lookup, MapAll, BootCalls, LinkerOrder, LeafPte, PageDown, PhysOk, OwnedPage, Intended;
    if bits.Some? {
      WrittenBits(va, bits.value);
    }
    h1 := BootIdentity(h, root, s, va);
  }

  /** After boot, bit by bit: text may be read and executed, read-only data only read, and data, bss, stack, heap and
      the device windows read and written; nothing is for user mode or global. */
  lemma BootBits(h: Phys, root: nat, s: Sections, va: nat) returns (h1: Phys)
    requires PhysOk(h) && OwnedPage(h, root) && h.mem[root] == ZeroPage()
    requires LinkerOrder(s) && MapAll(h, root, BootCalls(s)).Done? && va < TWO39
    ensures MapAll(h, root, BootCalls(s)) == Done(h1)
    ensures var f := Lookup(h1.mem, root, 2, va);
      && (s.textStart <= va < s.textEnd ==>
            && f.Leaf? && f.level == 0 && f.entry % 2 == 1 && f.entry / 1024 == va / 4096
            && PermissionsOf(f.entry) == Permissions(true, false, true, false, false, true, false))
      && (s.rodataStart <= va < s.rodataEnd ==>
            && f.Leaf? && f.level == 0 && f.entry % 2 == 1 && f.entry / 1024 == va / 4096
            && PermissionsOf(f.entry) == Permissions(true, false, false, false, false, true, false))
      && (s.dataStart <= va < s.dataEnd || s.bssStart <= va < s.bssEnd || s.stackStart <= va < s.memoryEnd
          || 0x1000_0000 <= va < 0x1000_9000 ==>
            && f.Leaf? && f.level == 0 && f.entry % 2 == 1 && f.entry / 1024 == va / 4096
            && PermissionsOf(f.entry) == Permissions(true, true, false, false, false, true, true))
  {
    hide Lookup, MapAll, BootCalls, LinkerOrder, LeafPte, PageDown, PermissionsOf, PhysOk, OwnedPage, Intended;
    h1 := BootIdentity(h, root, s, va);
    SectionPermissions(s, va);
    if Intended(s, va).Some? && Intended(s, va).value in {RX, RO, RW} {
      WrittenForm(va, Intended(s, va).value);
      WrittenBits(va, Intended(s, va).value);
    }
  }
}
