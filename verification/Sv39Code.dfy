/** The page-table code as the kernel writes it: masks and shifts on 64-bit words, entries changed in
    place in physical pages, tables taken from and returned to the allocator. */
module Sv39Code {
  import opened Bits
  import opened PageFrame
  import opened Sv39
  import opened Sv39Map
  import opened Sv39Unmap

  const VALID: nat := 1
  const RWX: nat := 0xe

  // ---------------------------------------------------------------- bit patterns as arithmetic

  lemma Powers()
    ensures Pow2(2) == 4 && Pow2(9) == 512 && Pow2(10) == 0x400 && Pow2(12) == 0x1000 && Pow2(19) == 0x8_0000
    ensures Pow2(21) == 0x20_0000 && Pow2(26) == 0x400_0000 && Pow2(28) == 0x1000_0000 && Pow2(30) == 0x4000_0000
    ensures Pow2(64) == Bits.TWO64
  {
    assert Pow2(8) == 256;
    assert Pow2(16) == 0x1_0000;
    assert Pow2(24) == 0x100_0000;
    assert Pow2(32) == 0x1_0000_0000;
    assert Pow2(40) == 0x100_0000_0000;
    assert Pow2(48) == 0x1_0000_0000_0000;
    assert Pow2(56) == 0x100_0000_0000_0000;
  }

  function ShiftOf(level: nat): nat { 12 + 9 * level }

  lemma ShiftUnit(level: nat)
    requires level <= 2
    ensures Pow2(ShiftOf(level)) == Unit(level)
  {
    Powers();
  }

  function VpnField(va: nat, level: nat): nat { And(Shr(va, ShiftOf(level)), 0x1ff) }

  lemma VpnFieldIs(va: nat, level: nat)
    requires level <= 2
    ensures VpnField(va, level) == Vpn(va, level)
  {
    ShiftUnit(level);
    Powers();
    AndLowMask(Shr(va, ShiftOf(level)), 9);
  }

  lemma FlagBits(e: nat)
    ensures And(e, VALID) != 0 <==> IsValid(e)
    ensures And(e, RWX) != 0 <==> IsLeaf(e)
  {
    AndLowMask(e, 1);
    assert Pow2(1) == 2 && Pow2(3) == 8;
    AndLowMask(e / 2, 3);
    assert And(e, RWX) == 2 * And(e / 2, 7);
  }

  /** Address of the table an entry points at. */
  function TableAddr(e: nat): nat { Shl(And(e, Not(0x3ff)), 2) }

  lemma TableAddrIs(e: nat)
    requires e < Bits.TWO64
    ensures TableAddr(e) == PageOf(e) * PAGE_SIZE
  {
    Powers();
    AndHighMask(e, 10, 64);
    assert And(e, Not(0x3ff)) == e / 0x400 * 0x400;
    DivModUnique(e / 0x400 * 0x1000, Bits.TWO64, e / 0x400 / 0x10_0000_0000_0000, PageOf(e) * 0x1000);
  }

  lemma BranchBits(page: nat)
    requires page < 0x10_0000_0000_0000
    ensures Or(Shr(page * PAGE_SIZE, 2), VALID) == BranchPte(page)
  {
    Powers();
    assert Shr(page * PAGE_SIZE, 2) == page * 0x400;
    OrDisjoint(page, 1, 10);
  }

  /** The leaf entry, field by field. */
  function LeafWord(pa: nat, bits: nat): nat {
    var ppn0 := And(Shr(pa, 12), 0x1ff);
    var ppn1 := And(Shr(pa, 21), 0x1ff);
    var ppn2 := And(Shr(pa, 30), 0x3ff_ffff);
    Or(Or(Or(Or(Shl(ppn2, 28), Shl(ppn1, 19)), Shl(ppn0, 10)), bits), VALID)
  }

  lemma FieldsAre(pa: nat)
    ensures Shl(And(Shr(pa, 12), 0x1ff), 10) == pa / 0x1000 % 512 * 0x400
    ensures Shl(And(Shr(pa, 21), 0x1ff), 19) == pa / 0x20_0000 % 512 * 0x8_0000
    ensures Shl(And(Shr(pa, 30), 0x3ff_ffff), 28) == pa / 0x4000_0000 % 0x400_0000 * 0x1000_0000
  {
    Powers();
    hide And, Pow2;
    AndLowMask(Shr(pa, 12), 9);
    AndLowMask(Shr(pa, 21), 9);
    AndLowMask(Shr(pa, 30), 26);
  }

  lemma FieldsJoin(p2: nat, p1: nat, p0: nat, bits: nat)
    requires p1 < 512 && p0 < 512 && bits < 256
    ensures Or(Or(Or(p2 * 0x1000_0000, p1 * 0x8_0000), p0 * 0x400), bits) == ((p2 * 512 + p1) * 512 + p0) * 0x400 + bits
  {
    Powers();
    hide Or, Pow2;
    OrDisjoint(p2, p1 * 0x8_0000, 28);
    var w := p2 * 512 + p1;
    assert w * 0x8_0000 == p2 * 0x1000_0000 + p1 * 0x8_0000;
    OrDisjoint(w, p0 * 0x400, 19);
    var page := w * 512 + p0;
    assert page * 0x400 == w * 0x8_0000 + p0 * 0x400;
    OrDisjoint(page, bits, 10);
  }

  lemma LeafWordIs(pa: nat, bits: nat)
    requires bits < 256
    ensures LeafWord(pa, bits) == LeafPte(pa, bits)
  {
    hide And, Or, Shl, Shr, Pow2;
    FieldsAre(pa);
    var p0, p1, p2 := pa / 0x1000 % 512, pa / 0x20_0000 % 512, pa / 0x4000_0000 % 0x400_0000;
    FieldsJoin(p2, p1, p0, bits);
    PageFields(pa);
    OrOne(((p2 * 512 + p1) * 512 + p0) * 0x400 + bits);
  }

  lemma OrOne(x: nat)
    ensures Or(x, 1) == if x % 2 == 1 then x else x + 1
  {
    assert x > 0 ==> Or(x, 1) == 1 + 2 * Or(x / 2, 0);
  }

  lemma PageFields(pa: nat)
    ensures pa % TWO56 / 0x1000
         == (pa / 0x4000_0000 % 0x400_0000 * 512 + pa / 0x20_0000 % 512) * 512 + pa / 0x1000 % 512
  {
    var a, b, c, q := pa / 0x1000, pa / 0x20_0000, pa / 0x4000_0000, pa / TWO56;
    assert b == a / 512 && c == b / 512 && q == c / 0x400_0000;
    assert pa % TWO56 == pa - q * TWO56;
    assert pa % TWO56 / 0x1000 == a - q * 0x1000_0000_0000;
  }

  /** The physical address a leaf gives: its page number above the page offset, the offset below. */
  function LeafPhys(e: nat, level: nat, va: nat): nat
    requires Pow2(ShiftOf(level)) <= Bits.TWO64
  {
    var mask := Pow2(ShiftOf(level)) - 1;
    Or(And(Shl(e, 2), Not(mask)), And(va, mask))
  }

  lemma LeafPhysIs(e: nat, level: nat, va: nat)
    requires level <= 2 && Pow2(ShiftOf(level)) <= Bits.TWO64
    ensures LeafPhys(e, level, va) == LeafAddr(e, level, va)
  {
    hide And, Or, Pow2;
    Powers();
    ShiftUnit(level);
    var k, u := ShiftOf(level), Unit(level);
    var x := Shl(e, 2);
    assert k <= 30 && x == e * 4 % Bits.TWO64;
    hide Shl, ShiftOf, Unit;
    AndLowMask(va, k);
    AndHighMask(x, k, 64);
    assert x - x % u == x / u * u;
    OrDisjoint(x / u, va % u, k);
  }

  // ---------------------------------------------------------------- one level down

  /** From table `p` at level `k` to the next table, taking a page for it when the entry is invalid. */
  function Descent(h: Phys, p: nat, k: nat, va: nat): Outcome<(Phys, nat)>
    requires k <= 2
  {
    if p !in h.mem || |h.mem[p]| != 512 then BadAccess
    else
      var i := Vpn(va, k);
      if IsValid(h.mem[p][i]) then Done((h, PageOf(h.mem[p][i])))
      else
        match TakePage(h)
        case OutOfMemory => OutOfMemory
        case BadAccess => BadAccess
        case Panic => Panic
        case Done((h1, page)) =>
          if p !in h1.mem || |h1.mem[p]| != 512 then BadAccess
          else Done((h1.(mem := SetEntry(h1.mem, p, i, BranchPte(page))), page))
  }

  lemma MapAtDescends(h: Phys, p: nat, k: nat, va: nat, leaf: nat, level: nat)
    requires level < k <= 2
    ensures MapAt(h, p, k, va, leaf, level) ==
      match Descent(h, p, k, va)
      case Done((h1, q)) => MapAt(h1, q, k - 1, va, leaf, level)
      case OutOfMemory => OutOfMemory
      case BadAccess => BadAccess
      case Panic => Panic
  {
  }

  // ---------------------------------------------------------------- the code

  /** RAM with its allocator: the words of every page, and the descriptor table in `frames`. */
  class Ram {
    const frames: PageFrames
    var mem: map<nat, seq<nat>>

    /** Pages are 512 words of 64 bits; the descriptors may hold anything. */
    ghost predicate Sized()
      reads this, frames, frames.table
    {
      && frames.table.Length == frames.layout.Count()
      && (forall q :: q in mem ==> |mem[q]| == 512)
      && forall q, i :: q in mem && 0 <= i < |mem[q]| ==> mem[q][i] < Bits.TWO64
    }

    ghost predicate Valid()
      reads this, frames, frames.table
    {
      Sized() && frames.Valid() && PhysOk(State())
    }

    /** The physical state this object holds. */
    ghost function State(): Phys
      reads this, frames.table
    {
      Phys(frames.layout.Base(), PageUp(frames.layout.HeapEnd()) / PAGE_SIZE, frames.table[..], mem)
    }

    constructor (frames: PageFrames, mem: map<nat, seq<nat>>)
      requires frames.Valid() && frames.layout.Base() + frames.table.Length <= 0x1000_0000_0000
      requires forall q :: q in mem ==> |mem[q]| == 512
      requires forall q, i :: q in mem && 0 <= i < |mem[q]| ==> mem[q][i] < Bits.TWO64
      ensures this.frames == frames && this.mem == mem && Valid()
    {
      this.frames := frames;
      this.mem := mem;
    }

    /** Take and zero one page; `Done` carries its page number. */
    method ZeroedPage() returns (r: Outcome<nat>)
      requires Valid()
      modifies this`mem, frames.table
      ensures match TakePage(old(State()))
        case Done((h, page)) => r == Done(page) && State() == h && Valid()
        case OutOfMemory => r == OutOfMemory
        case BadAccess => r == BadAccess
        case Panic => false
    {
      ghost var h := State();
      var a := frames.Allocate(1);
      match a
      case None => return OutOfMemory;
      case Some(addr) =>
        var page := addr / PAGE_SIZE;
        assert page == h.base + FirstFit(h.desc, 1, 0).value;
        if page !in mem {
          return BadAccess;
        }
        mem := mem[page := ZeroPage()];
        return Done(page);
    }

    /** Write one entry in place. */
    method Store(p: nat, i: nat, e: nat)
      requires Sized() && p in mem && i < 512 && e < Bits.TWO64
      modifies this`mem
      ensures Sized() && (old(Valid()) ==> Valid())
      ensures State() == old(State()).(mem := SetEntry(old(mem), p, i, e))
    {
      var words: seq<nat> := mem[p];
      mem := mem[p := words[i := e]];
    }

    /** One round of the mapper's loop: the next table, grown when it is missing. */
    method Descend(p: nat, k: nat, va: nat) returns (r: Outcome<nat>)
      requires Valid() && k <= 2
      modifies this`mem, frames.table
      ensures match Descent(old(State()), p, k, va)
        case Done((h, q)) => r == Done(q) && State() == h && Valid()
        case OutOfMemory => r == OutOfMemory
        case BadAccess => r == BadAccess
        case Panic => false
    {
      hide And, Or, Shl, Shr, Pow2, VpnField, TableAddr;
      if p !in mem {
        return BadAccess;
      }
      VpnFieldIs(va, k);
      var i := VpnField(va, k);
      FlagBits(mem[p][i]);
      if And(mem[p][i], VALID) == 0 {
        var z := ZeroedPage();
        match z {
          case OutOfMemory => return OutOfMemory;
          case BadAccess => return BadAccess;
          case Panic => return Panic;
          case Done(page) =>
            BranchBits(page);
            BranchPteFacts(page);
            Store(p, i, Or(Shr(page * PAGE_SIZE, 2), VALID));
        }
      }
      TableAddrIs(mem[p][i]);
      return Done(TableAddr(mem[p][i]) / PAGE_SIZE);
    }

    /** Install a mapping: walk down with a cursor, growing tables on demand, and write the leaf. */
    method Map(root: nat, va: nat, pa: nat, bits: nat, level: nat) returns (r: Outcome<()>)
      requires Valid() && bits < 256
      modifies this`mem, frames.table
      ensures !LeafFlags(bits) ==> r == Panic && State() == old(State())
      ensures LeafFlags(bits) ==>
        match Sv39.Map(old(State()), root, va, pa, bits, level)
        case Done(h) => r == Done(()) && State() == h && Valid()
        case OutOfMemory => r == OutOfMemory
        case BadAccess => r == BadAccess
        case Panic => r == Panic
    {
      FlagBits(bits);
      if And(bits, RWX) == 0 {
        return Panic;
      }
      LeafWordIs(pa, bits);
      var leaf := LeafWord(pa, bits);
      assert leaf < Bits.TWO64;
      var p, k := root, 2;
      hide And, LeafWord, LeafPte, VpnField, Descent;
      while k > level
        invariant k <= 2 && Valid() && (k == 2 || level <= k)
        invariant MapAt(State(), p, k, va, leaf, level) == MapAt(old(State()), root, 2, va, leaf, level)
        decreases k
      {
        MapAtDescends(State(), p, k, va, leaf, level);
        var d := Descend(p, k, va);
        match d {
          case OutOfMemory => return OutOfMemory;
          case BadAccess => return BadAccess;
          case Panic => return Panic;
          case Done(q) => p, k := q, k - 1;
        }
      }
      if p !in mem {
        return BadAccess;
      }
      VpnFieldIs(va, k);
      Store(p, VpnField(va, k), leaf);
      return Done(());
    }

    /** Software walk with a cursor. */
    method Resolve(root: nat, va: nat) returns (r: Translation)
      requires Valid()
      ensures r == V2p(mem, root, va)
    {
      hide And, Or, Shl, Shr, Pow2, VpnField, TableAddr, LeafPhys, LeafAddr;
      var p: nat, k: nat := root, 2;
      while true
        invariant k <= 2 && Lookup(mem, p, k, va) == Lookup(mem, root, 2, va)
        decreases k
      {
        if p !in mem {
          return Fault;
        }
        VpnFieldIs(va, k);
        var e := mem[p][VpnField(va, k)];
        FlagBits(e);
        if And(e, VALID) == 0 {
          return Unmapped;
        }
        if And(e, RWX) != 0 {
          Powers();
          ShiftUnit(k);
          LeafPhysIs(e, k, va);
          return Mapped(LeafPhys(e, k, va));
        }
        if k == 0 {
          return Unmapped;
        }
        TableAddrIs(e);
        p, k := TableAddr(e) / PAGE_SIZE, k - 1;
      }
    }

    /** Return a page to the allocator; false is the allocator's panic. */
    method FreePage(page: nat) returns (ok: bool)
      requires Sized()
      modifies frames.table
      ensures Sized()
      ensures match Release(old(State()), page)
        case Done(h) => ok && State() == h
        case _ => !ok
    {
      ok := frames.Deallocate(page * PAGE_SIZE);
    }

    /** The inner loop of the tear-down: release what level-1 table `t` links, and clear the links. */
    method UnmapTable(t: nat) returns (r: Outcome<()>)
      requires Sized()
      modifies this`mem, frames.table
      ensures Sized()
      ensures match UnmapInner(old(State()), t, 0)
        case Done(h) => r == Done(()) && State() == h
        case OutOfMemory => r == OutOfMemory
        case BadAccess => r == BadAccess
        case Panic => r == Panic
    {
      hide And, Or, Shl, Shr, Pow2, TableAddr, Release;
      if t !in mem {
        return BadAccess;
      }
      for j := 0 to 512
        invariant Sized() && t in mem
        invariant UnmapInner(State(), t, j) == UnmapInner(old(State()), t, 0)
      {
        var e := mem[t][j];
        FlagBits(e);
        if And(e, VALID) != 0 && And(e, RWX) == 0 {
          TableAddrIs(e);
          ReleaseOrPanic(State(), PageOf(e));
          var ok := FreePage(TableAddr(e) / PAGE_SIZE);
          if !ok {
            return Panic;
          }
          Store(t, j, 0);
        }
      }
      return Done(());
    }

    /** Free every table below the root. */
    method Unmap(root: nat) returns (r: Outcome<()>)
      requires Sized()
      modifies this`mem, frames.table
      ensures match Sv39Unmap.Unmap(old(State()), root)
        case Done(h) => r == Done(()) && State() == h
        case OutOfMemory => r == OutOfMemory
        case BadAccess => r == BadAccess
        case Panic => r == Panic
    {
      hide And, Or, Shl, Shr, Pow2, TableAddr, Release, UnmapInner, PageOf;
      if root !in mem {
        return BadAccess;
      }
      for i := 0 to 512
        invariant Sized() && root in mem
        invariant UnmapFrom(State(), root, i) == UnmapFrom(old(State()), root, 0)
      {
        var e := mem[root][i];
        FlagBits(e);
        assert IsBranch(e) <==> And(e, VALID) != 0 && And(e, RWX) == 0;
        hide IsValid, IsLeaf, IsBranch;
        if And(e, VALID) != 0 && And(e, RWX) == 0 {
          TableAddrIs(e);
          r := UnmapBelow(TableAddr(e) / PAGE_SIZE);
          if !r.Done? {
            return;
          }
          if root !in mem {
            return BadAccess;
          }
          Store(root, i, 0);
        }
      }
      return Done(());
    }

    /** Free the tables below a level-1 table, then the table itself. */
    method UnmapBelow(t: nat) returns (r: Outcome<()>)
      requires Sized()
      modifies this`mem, frames.table
      ensures Sized()
      ensures match UnmapInner(old(State()), t, 0)
        case Done(h) =>
          (match Release(h, t)
           case Done(h1) => r == Done(()) && State() == h1
           case Panic => r == Panic
           case _ => false)
        case OutOfMemory => r == OutOfMemory
        case BadAccess => r == BadAccess
        case Panic => r == Panic
    {
      hide Release, UnmapInner;
      r := UnmapTable(t);
      if !r.Done? {
        return;
      }
      ReleaseOrPanic(State(), t);
      var ok := FreePage(t);
      if !ok {
        return Panic;
      }
    }
  }

  lemma ReleaseOrPanic(h: Phys, page: nat)
    ensures Release(h, page).Done? || Release(h, page) == Panic
  {
  }
}
