/** The address translation of the RISC-V Privileged Architecture, version 20211203, section 4.3.2 as
    instantiated for Sv39 in section 4.4, as an independent reference for the software walk.
    Permission checks and the A/D updates (steps 5 and 7) are not part of it. */
module Sv39Standard {
  import Bits
  import opened PageFrame
  import opened Sv39
  import opened Sv39Map
  import opened Sv39Unmap

  predicate Bit(e: nat, value: nat)
    requires value > 0
  {
    e / value % 2 == 1
  }

  predicate R(e: nat) { Bit(e, 2) }
  predicate W(e: nat) { Bit(e, 4) }
  predicate X(e: nat) { Bit(e, 8) }

  /** The three page-number fields of an entry: 9, 9 and 26 bits. */
  function Ppn(e: nat, i: nat): nat {
    if i == 0 then e / 0x400 % 512 else if i == 1 then e / 0x8_0000 % 512 else e / 0x1000_0000 % 0x400_0000
  }

  function WholePpn(e: nat): nat { Ppn(e, 2) * 0x4_0000 + Ppn(e, 1) * 512 + Ppn(e, 0) }

  /** Step 6: a superpage leaf whose low page-number fields are not zero. */
  predicate Misaligned(e: nat, i: nat) {
    (i >= 1 && Ppn(e, 0) != 0) || (i >= 2 && Ppn(e, 1) != 0)
  }

  /** Step 8: the low fields come from the address, the high ones from the entry. */
  function Compose(e: nat, i: nat, va: nat): nat {
    Ppn(e, 2) * 0x4000_0000
    + (if i >= 2 then Vpn(va, 1) else Ppn(e, 1)) * 0x20_0000
    + (if i >= 1 then Vpn(va, 0) else Ppn(e, 0)) * 0x1000
    + va % 0x1000
  }

  /** Bits 63 to 54 are reserved, and a pointer may not have D, A or U set. */
  predicate Reserved(e: nat) {
    e >= 0x40_0000_0000_0000 || (!R(e) && !X(e) && (Bit(e, 16) || Bit(e, 64) || Bit(e, 128)))
  }

  datatype Result = Pa(pa: nat) | PageFault | AccessFault

  /** Steps 2 to 8 from the table at page `a`, level `i`. */
  function Steps(mem: map<nat, seq<nat>>, a: nat, i: nat, va: nat): Result
    requires i <= 2
    decreases i
  {
    if a !in mem || |mem[a]| != 512 then AccessFault
    else
      var pte := mem[a][Vpn(va, i)];
      if !Bit(pte, 1) || (!R(pte) && W(pte)) || Reserved(pte) then PageFault
      else if R(pte) || X(pte) then
        if Misaligned(pte, i) then PageFault else Pa(Compose(pte, i, va))
      else if i == 0 then PageFault
      else Steps(mem, WholePpn(pte), i - 1, va)
  }

  /** Bits 63 to 39 of an address must equal bit 38. */
  predicate Canonical(va: nat) { va < 0x40_0000_0000 || 0xffff_ffc0_0000_0000 <= va < Bits.TWO64 }

  function Translate(mem: map<nat, seq<nat>>, root: nat, va: nat): Result {
    if !Canonical(va) then PageFault else Steps(mem, root, 2, va)
  }

  predicate Agree(t: Translation, r: Result) {
    match t
    case Mapped(pa) => r == Pa(pa)
    case Unmapped => r == PageFault
    case Fault => r == AccessFault
  }

  // ---------------------------------------------------------------- agreement

  /** What the standard demands of a leaf: no write without read, aligned, no reserved bit. */
  predicate LeafConforms(e: nat, i: nat) {
    (W(e) ==> R(e)) && !Misaligned(e, i) && e < 0x40_0000_0000_0000
  }

  lemma LeafBits(e: nat)
    ensures IsLeaf(e) <==> R(e) || W(e) || X(e)
    ensures IsValid(e) <==> Bit(e, 1)
  {
    Halves(e);
    LowThree(e / 2);
  }

  lemma Halves(e: nat)
    ensures e / 4 == e / 2 / 2 && e / 8 == e / 2 / 4
  {
  }

  lemma LowThree(y: nat)
    ensures y % 8 == y % 2 + 2 * (y / 2 % 2) + 4 * (y / 4 % 2)
  {
    Bits.HalfMod(y, 4);
    Bits.HalfMod(y / 2, 2);
    assert y / 2 / 2 == y / 4;
  }

  lemma PpnSplit(e: nat)
    requires e < 0x40_0000_0000_0000
    ensures e / 0x400 == WholePpn(e)
  {
    var a := e / 0x400;
    assert e / 0x8_0000 == a / 512;
    assert e / 0x1000_0000 == a / 0x4_0000;
    assert a / 0x4_0000 == a / 512 / 512;
  }

  /** A conforming leaf composes the same address both ways. */
  lemma ComposeIsLeafAddr(e: nat, i: nat, va: nat)
    requires i <= 2 && LeafConforms(e, i)
    ensures Compose(e, i, va) == LeafAddr(e, i, va)
  {
    PpnSplit(e);
    var a := e / 0x400;
    assert e * 4 % Bits.TWO64 == e * 4;
    assert e * 4 / 0x1000 == a;
    if i == 0 {
    } else if i == 1 {
      assert e * 4 / 0x20_0000 == a / 512 == Ppn(e, 2) * 512 + Ppn(e, 1);
      VaLow1(va);
    } else {
      assert e * 4 / 0x4000_0000 == a / 0x4_0000 == Ppn(e, 2);
      VaLow2(va);
    }
  }

  lemma VaLow1(va: nat)
    ensures va % 0x20_0000 == Vpn(va, 0) * 0x1000 + va % 0x1000
  {
    assert va / 0x20_0000 == va / 0x1000 / 512;
  }

  lemma VaLow2(va: nat)
    ensures va % 0x4000_0000 == Vpn(va, 1) * 0x20_0000 + Vpn(va, 0) * 0x1000 + va % 0x1000
  {
    VaLow1(va);
    assert va / 0x4000_0000 == va / 0x20_0000 / 512;
  }

  /** A pointer entry of the mapper's form is a legal pointer to the same table. */
  lemma BranchConforms(page: nat)
    requires page < 0x1000_0000_0000
    ensures var e := BranchPte(page);
      !R(e) && !W(e) && !X(e) && Bit(e, 1) && !Reserved(e) && WholePpn(e) == page && PageOf(e) == page
  {
    var e := BranchPte(page);
    hide BranchPte, PageOf, WholePpn, Bit;
    BranchWord(page);
    BranchFlags(e);
    PpnSplit(e);
  }

  lemma BranchWord(page: nat)
    requires page < 0x1000_0000_0000
    ensures var e := BranchPte(page);
      e < 0x40_0000_0000_0000 && e / 0x400 == page && e % 0x400 == 1 && PageOf(e) == page
  {
  }

  lemma BranchFlags(e: nat)
    requires e % 0x400 == 1
    ensures !R(e) && !W(e) && !X(e) && Bit(e, 1) && !Bit(e, 16) && !Bit(e, 64) && !Bit(e, 128)
  {
    var q := e / 0x400;
    assert e == 1024 * q + 1;
    assert e / 2 == 2 * (256 * q) && e / 4 == 2 * (128 * q) && e / 8 == 2 * (64 * q);
    assert e / 16 == 2 * (32 * q) && e / 64 == 2 * (8 * q) && e / 128 == 2 * (4 * q);
  }

  /** On a tree of tables the standard's walk ends where the software walk does, and the two agree
      exactly when the leaf it finds, if any, conforms. */
  lemma {:induction false} StepsFollowLookup(h: Phys, root: nat, tree: Tree, p: nat, k: nat, va: nat)
    requires Shaped(h, root, tree) && p in tree && tree[p].level == k
    ensures match Lookup(h.mem, p, k, va)
      case Hole => Steps(h.mem, p, k, va) == PageFault
      case Wild => false
      case Leaf(e, l) => Steps(h.mem, p, k, va) == if LeafConforms(e, l) then Pa(LeafAddr(e, l, va)) else PageFault
    decreases k
  {
    assert OwnedPage(h, p);
    var i := Vpn(va, k);
    var e := h.mem[p][i];
    LeafBits(e);
    assert GoodEntry(h, tree, p, i);
    if IsBranch(e) && k > 0 {
      assert OwnedPage(h, PageOf(e));
      BranchConforms(PageOf(e));
      StepsFollowLookup(h, root, tree, PageOf(e), k - 1, va);
    } else if IsValid(e) && IsLeaf(e) && LeafConforms(e, k) {
      ComposeIsLeafAddr(e, k, va);
    }
  }

  /** The software walk agrees with the standard on a canonical address exactly when the address is
      unmapped or its leaf conforms; otherwise the walk answers where the hardware faults. */
  lemma WalkAgreesIff(h: Phys, root: nat, tree: Tree, va: nat)
    requires Shaped(h, root, tree) && Canonical(va)
    ensures Agree(V2p(h.mem, root, va), Translate(h.mem, root, va)) <==>
      match Lookup(h.mem, root, 2, va) { case Leaf(e, l) => LeafConforms(e, l) case _ => true }
  {
    StepsFollowLookup(h, root, tree, root, 2, va);
  }

  /** Write permission comes with read permission. */
  predicate WriteReads(bits: nat) { bits / 4 % 2 == 1 ==> bits / 2 % 2 == 1 }

  /** The page of the frame is the first of a leaf-sized run; the mapper drops what lies above 56 bits or within a
      page. */
  predicate FrameAligned(pa: nat, i: nat)
    requires i <= 2
  {
    pa % TWO56 % Unit(i) < 0x1000
  }

  predicate CallConforms(c: MapCall) { WriteReads(c.bits) && FrameAligned(c.pa, Clamp(c.level)) }

  lemma LeafPteForm(pa: nat, bits: nat)
    requires LeafFlags(bits)
    ensures var e := LeafPte(pa, bits);
      && e < 0x40_0000_0000_0000 && e / 0x400 == pa % TWO56 / 0x1000
      && e % 0x400 == (if bits % 2 == 1 then bits else bits + 1)
  {
  }

  lemma PageInRegion(w: nat, n: nat, region: nat)
    requires (n == 512 && region == 0x20_0000) || (n == 0x4_0000 && region == 0x4000_0000)
    ensures w / 0x1000 % n == w % region / 0x1000
  {
    var q, r := w / region, w % region;
    if n == 512 {
      assert w / 0x1000 == q * 512 + r / 0x1000;
      Bits.DivModUnique(w / 0x1000, 512, q, r / 0x1000);
    } else {
      assert w / 0x1000 == q * 0x4_0000 + r / 0x1000;
      Bits.DivModUnique(w / 0x1000, 0x4_0000, q, r / 0x1000);
    }
  }

  lemma AlignedPage(w: nat, i: nat)
    requires i <= 2
    ensures var page := w / 0x1000;
      (i >= 1 && page % 512 != 0) || (i >= 2 && page / 512 % 512 != 0) <==> w % Unit(i) >= 0x1000
  {
    var page := w / 0x1000;
    if i == 1 {
      PageInRegion(w, 512, 0x20_0000);
    } else if i == 2 {
      PageInRegion(w, 0x4_0000, 0x4000_0000);
      assert page % 0x4_0000 == page / 512 % 512 * 512 + page % 512 by { TwoDigits(page); }
    }
  }

  lemma TwoDigits(x: nat)
    ensures x % 0x4_0000 == x / 512 % 512 * 512 + x % 512
  {
    assert x / 0x4_0000 == x / 512 / 512;
  }

  /** The leaf the mapper writes conforms exactly when write permission comes with read permission and the frame is
      aligned to the leaf's size. */
  lemma LeafPteConforms(pa: nat, bits: nat, i: nat)
    requires i <= 2 && LeafFlags(bits)
    ensures LeafConforms(LeafPte(pa, bits), i) <==> WriteReads(bits) && FrameAligned(pa, i)
  {
    var e := LeafPte(pa, bits);
    var page := pa % TWO56 / 0x1000;
    var b := if bits % 2 == 1 then bits else bits + 1;
    LeafPteForm(pa, bits);
    assert b / 2 == bits / 2 && b / 4 == bits / 4;
    hide LeafPte, Unit, LeafFlags;
    LowBits(e, b);
    assert (W(e) ==> R(e)) <==> WriteReads(bits);
    assert Ppn(e, 0) == page % 512;
    assert Ppn(e, 1) == page / 512 % 512 by { assert e / 0x8_0000 == e / 0x400 / 512; }
    AlignedPage(pa % TWO56, i);
  }

  lemma EvenPlus(m: nat, c: nat)
    ensures (2 * m + c) % 2 == c % 2
  {
  }

  lemma LowBits(e: nat, b: nat)
    requires e % 1024 == b
    ensures R(e) == (b / 2 % 2 == 1) && W(e) == (b / 4 % 2 == 1)
  {
    var q := e / 1024;
    assert e / 2 == 512 * q + b / 2;
    assert e / 4 == 256 * q + b / 4;
    EvenPlus(256 * q, b / 2);
    EvenPlus(128 * q, b / 4);
  }

  /** After any history of calls on a zeroed root, the software walk and the standard's translation agree on a
      canonical address exactly when the last call that covers it, if any, conforms. */
  lemma HistoryAgrees(h: Phys, root: nat, calls: seq<MapCall>, va: nat) returns (h1: Phys)
    requires PhysOk(h) && OwnedPage(h, root) && h.mem[root] == ZeroPage()
    requires NeverThroughLeaf(h, root, calls) && MapAll(h, root, calls).Done?
    requires Canonical(va)
    ensures MapAll(h, root, calls) == Done(h1)
    ensures Agree(V2p(h1.mem, root, va), Translate(h1.mem, root, va)) <==>
      match LastWriter(calls, va) { case Some(c) => CallConforms(c) case None => true }
  {
    var tree := FreshRoot(h, root);
    assert Lookup(h.mem, root, 2, va) == Hole by { hide Vpn; }
    hide *;
    var tree1;
    h1, tree1 := MapAllCorrect(h, root, tree, calls);
    WalkAgreesIff(h1, root, tree1, va);
    CallFlags(h, root, calls);
    DecidedConforms(h.mem, root, calls, va);
  }

  lemma {:induction false} CallFlags(h: Phys, root: nat, calls: seq<MapCall>)
    requires NeverThroughLeaf(h, root, calls) && MapAll(h, root, calls).Done?
    ensures forall c :: c in calls ==> LeafFlags(c.bits)
    decreases calls
  {
    if calls != [] {
      hide Map, LeafFlags, PathClear;
      CallFlags(Map(h, root, calls[0].va, calls[0].pa, calls[0].bits, calls[0].level).value, root, calls[1..]);
      assert forall c :: c in calls ==> c == calls[0] || c in calls[1..];
    }
  }

  lemma DecidedConforms(mem: map<nat, seq<nat>>, root: nat, calls: seq<MapCall>, va: nat)
    requires Lookup(mem, root, 2, va) == Hole
    requires forall c :: c in calls ==> LeafFlags(c.bits)
    ensures (match Decided(mem, root, calls, va) { case Leaf(e, l) => LeafConforms(e, l) case _ => true }) <==>
      match LastWriter(calls, va) { case Some(c) => CallConforms(c) case None => true }
  {
    var r := LastWriter(calls, va);
    if r.Some? {
      LeafPteConforms(r.value.pa, r.value.bits, Clamp(r.value.level));
    }
  }

  /** A gigabyte leaf over the second page of memory: the mapper accepts it, the software walk answers with the address
      rounded down, and the standard's translation faults. */
  lemma MisalignedSuperpage(h: Phys, root: nat) returns (h1: Phys)
    requires PhysOk(h) && OwnedPage(h, root) && h.mem[root] == ZeroPage()
    ensures Map(h, root, 0, 0x1000, 0x2, 2) == Done(h1)
    ensures V2p(h1.mem, root, 0) == Mapped(0) && Translate(h1.mem, root, 0) == PageFault
  {
    h1 := h.(mem := SetEntry(h.mem, root, 0, 0x403));
    assert Vpn(0, 2) == 0 && LeafPte(0x1000, 0x2) == 0x403;
    assert h1.mem[root][0] == 0x403;
    assert Misaligned(0x403, 2);
  }

  /** A leaf that may be written and not read: accepted and answered by the software walk, a fault to the standard. */
  lemma WriteOnlyLeaf(h: Phys, root: nat) returns (h1: Phys)
    requires PhysOk(h) && OwnedPage(h, root) && h.mem[root] == ZeroPage()
    ensures Map(h, root, 0, 0, 0x4, 2) == Done(h1)
    ensures V2p(h1.mem, root, 0) == Mapped(0) && Translate(h1.mem, root, 0) == PageFault
  {
    h1 := h.(mem := SetEntry(h.mem, root, 0, 0x5));
    assert Vpn(0, 2) == 0 && LeafPte(0, 0x4) == 0x5;
    assert h1.mem[root][0] == 0x5;
  }
}
