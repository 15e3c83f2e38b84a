/** Sv39 page tables held in physical pages: the entry format, the walk, and the mapper, with the
    invariant that the tables form a tree of distinct allocator-owned pages. */
module Sv39 {
  import Bits
  import opened PageFrame

  const TWO39: nat := 0x80_0000_0000
  const TWO56: nat := 0x100_0000_0000_0000

  // ---------------------------------------------------------------- entries and addresses

  /** Bytes covered by one entry at a level: 4 KiB, 2 MiB or 1 GiB. */
  function Unit(level: nat): (u: nat)
    requires level <= 2
    ensures u > 0
  {
    if level == 0 then 0x1000 else if level == 1 then 0x20_0000 else 0x4000_0000
  }

  function Vpn(va: nat, level: nat): (v: nat)
    requires level <= 2
    ensures v < 512
  {
    va / Unit(level) % 512
  }

  predicate IsValid(e: nat) { e % 2 == 1 }
  predicate IsLeaf(e: nat) { e / 2 % 8 != 0 }
  predicate IsBranch(e: nat) { IsValid(e) && !IsLeaf(e) }

  /** Physical page number of the table an entry points at. */
  function PageOf(e: nat): nat { e / 1024 % 0x10_0000_0000_0000 }

  function BranchPte(page: nat): nat { page * 1024 + 1 }

  /** The flags are at most the eight architectural ones, and a leaf has one of R, W, X. */
  predicate LeafFlags(bits: nat) { bits < 256 && bits / 2 % 8 != 0 }

  /** The leaf the mapper writes: the low 56 address bits give the page number, VALID is forced. */
  function LeafPte(pa: nat, bits: nat): nat {
    pa % TWO56 / 0x1000 * 1024 + (if bits % 2 == 1 then bits else bits + 1)
  }

  function LeafAddr(e: nat, level: nat, va: nat): nat
    requires level <= 2
  {
    e * 4 % Bits.TWO64 / Unit(level) * Unit(level) + va % Unit(level)
  }

  /** Two addresses fall under the same entry at a level; only the low 39 bits are looked at. */
  predicate SameRegion(va: nat, va2: nat, level: nat)
    requires level <= 2
  {
    va % TWO39 / Unit(level) == va2 % TWO39 / Unit(level)
  }

  /** The region number in base 512: one digit per level from the top. */
  lemma RegionDigits(va: nat)
    ensures va % TWO39 / Unit(2) == Vpn(va, 2)
    ensures va % TWO39 / Unit(1) == Vpn(va, 2) * 512 + Vpn(va, 1)
    ensures va % TWO39 / Unit(0) == (Vpn(va, 2) * 512 + Vpn(va, 1)) * 512 + Vpn(va, 0)
  {
    var q, c, b, a := va / TWO39, va / Unit(2), va / Unit(1), va / Unit(0);
    assert c / 512 == q by { Nested(va, Unit(2), q); }
    assert b / 512 == c by { Nested(va, Unit(1), c); }
    assert a / 512 == b by { Nested(va, Unit(0), b); }
    var w := va % TWO39;
    assert w == va - TWO39 * q;
    assert w / Unit(2) == c - 512 * q;
    assert w / Unit(1) == b - 0x4_0000 * q;
    assert w / Unit(0) == a - 0x800_0000 * q;
  }

  lemma Nested(x: nat, u: nat, q: nat)
    requires u == Unit(0) || u == Unit(1) || u == Unit(2)
    requires q == x / (u * 512)
    ensures x / u / 512 == q
  {
  }

  lemma SameRegionVpn(va: nat, va2: nat, level: nat)
    requires level <= 2
    ensures SameRegion(va, va2, level) <==>
      && Vpn(va, 2) == Vpn(va2, 2)
      && (level <= 1 ==> Vpn(va, 1) == Vpn(va2, 1)) && (level == 0 ==> Vpn(va, 0) == Vpn(va2, 0))
  {
    RegionDigits(va);
    RegionDigits(va2);
  }

  // ---------------------------------------------------------------- physical memory

  /** The descriptor table, the first page number it describes, the page number of the heap end
      (from which on a release is refused), and the 512 words of every RAM page. */
  datatype Phys = Phys(base: nat, end: nat, desc: seq<bv8>, mem: map<nat, seq<nat>>)

  ghost predicate PhysOk(h: Phys) {
    && WellFormed(h.desc)
    && h.base + |h.desc| <= 0x1000_0000_0000
    && forall q :: q in h.mem ==> |h.mem[q]| == 512
  }

  function SetEntry(mem: map<nat, seq<nat>>, p: nat, i: nat, e: nat): map<nat, seq<nat>>
    requires p in mem && i < |mem[p]|
  {
    var words: seq<nat> := mem[p];
    mem[p := words[i := e]]
  }

  datatype Outcome<T> = Done(value: T) | OutOfMemory | BadAccess | Panic

  /** Take one zeroed page; writing a page outside RAM is a bad access. */
  function TakePage(h: Phys): (r: Outcome<(Phys, nat)>)
  {
    match FirstFit(h.desc, 1, 0)
    case None => OutOfMemory
    case Some(s) =>
      if h.base + s in h.mem
      then Done((h.(desc := MarkRun(h.desc, s, 1), mem := h.mem[h.base + s := ZeroPage()]), h.base + s))
      else BadAccess
  }

  // ---------------------------------------------------------------- walk

  datatype Found = Leaf(entry: nat, level: nat) | Hole | Wild

  /** The entry that decides `va`, starting from table `p` at level `k`. */
  function Lookup(mem: map<nat, seq<nat>>, p: nat, k: nat, va: nat): (r: Found)
    requires k <= 2
    ensures r.Leaf? ==> r.level <= k
    decreases k
  {
    if p !in mem || |mem[p]| != 512 then Wild
    else
      var e := mem[p][Vpn(va, k)];
      if !IsValid(e) then Hole
      else if IsLeaf(e) then Leaf(e, k)
      else if k == 0 then Hole
      else Lookup(mem, PageOf(e), k - 1, va)
  }

  datatype Translation = Mapped(pa: nat) | Unmapped | Fault

  /** The software walk: a physical address, nothing, or a stray dereference. */
  function V2p(mem: map<nat, seq<nat>>, root: nat, va: nat): Translation {
    match Lookup(mem, root, 2, va)
    case Leaf(e, l) => Mapped(LeafAddr(e, l, va))
    case Hole => Unmapped
    case Wild => Fault
  }

  // ---------------------------------------------------------------- map

  /** Walk down from table `p` at level `k`, growing tables on demand, and write the leaf at `level`. */
  function MapAt(h: Phys, p: nat, k: nat, va: nat, leaf: nat, level: nat): (r: Outcome<Phys>)
    requires k <= 2
    decreases k
  {
    if p !in h.mem || |h.mem[p]| != 512 then BadAccess
    else
      var i := Vpn(va, k);
      var e := h.mem[p][i];
      if k <= level then Done(h.(mem := SetEntry(h.mem, p, i, leaf)))
      else if IsValid(e) then MapAt(h, PageOf(e), k - 1, va, leaf, level)
      else
        match TakePage(h)
        case OutOfMemory => OutOfMemory
        case BadAccess => BadAccess
        case Panic => Panic
        case Done((h1, page)) =>
          if p !in h1.mem || |h1.mem[p]| != 512 then BadAccess
          else
            MapAt(h1.(mem := SetEntry(h1.mem, p, i, BranchPte(page))), page, k - 1, va, leaf, level)
  }

  function Map(h: Phys, root: nat, va: nat, pa: nat, bits: nat, level: nat): Outcome<Phys> {
    MapAt(h, root, 2, va, LeafPte(pa, bits), level)
  }

  // ---------------------------------------------------------------- tree shape

  /** Where a table hangs: its level and the entry that points at it (unused for the root). */
  datatype Node = Node(level: nat, parent: nat, index: nat)
  type Tree = map<nat, Node>

  /** Page `p` is RAM and a one-page run of the allocator. */
  ghost predicate OwnedPage(h: Phys, p: nat) {
    && p in h.mem
    && h.base <= p < h.base + |h.desc|
    && h.desc[p - h.base] == 3
    && (p == h.base || h.desc[p - h.base - 1] != 1)
  }

  /** A branch entry of a table in the tree has the mapper's form, and the table it points at names
      it as its parent. */
  ghost predicate GoodEntry(h: Phys, tree: Tree, p: nat, i: nat)
    requires p in tree && p in h.mem && i < |h.mem[p]|
  {
    var e := h.mem[p][i];
    IsBranch(e) ==>
      && e == BranchPte(PageOf(e))
      && tree[p].level > 0
      && PageOf(e) in tree
      && tree[PageOf(e)] == Node(tree[p].level - 1, p, i)
  }

  ghost predicate Shaped(h: Phys, root: nat, tree: Tree) {
    && PhysOk(h)
    && root in tree && tree[root].level == 2
    && (forall p :: p in tree ==> tree[p].level <= 2 && OwnedPage(h, p))
    && (forall p, i :: p in tree && 0 <= i < 512 ==> GoodEntry(h, tree, p, i))
  }

  /** Every table but the root is still linked from its parent: nothing has been orphaned. */
  ghost predicate Linked(h: Phys, root: nat, tree: Tree)
    requires Shaped(h, root, tree)
  {
    forall q :: q in tree && q != root ==>
      && tree[q].level < 2 && tree[q].index < 512 && tree[q].parent in tree
      && IsBranch(h.mem[tree[q].parent][tree[q].index])
      && PageOf(h.mem[tree[q].parent][tree[q].index]) == q
  }

  /** The walk for `va` from table `p` at level `k` arrives at table `c` at level `l`. */
  ghost predicate Reaches(mem: map<nat, seq<nat>>, p: nat, k: nat, va: nat, c: nat, l: nat)
    requires k <= 2
    decreases k
  {
    if k == l then p == c
    else
      && k > l && p in mem && |mem[p]| == 512
      && IsBranch(mem[p][Vpn(va, k)])
      && Reaches(mem, PageOf(mem[p][Vpn(va, k)]), k - 1, va, c, l)
  }

  /** In a tree, the walk that reaches a table determines the upper part of the address. */
  lemma PathUnique(h: Phys, root: nat, tree: Tree, va: nat, va2: nat, c: nat, l: nat)
    requires Shaped(h, root, tree) && l <= 2
    requires Reaches(h.mem, root, 2, va, c, l) && Reaches(h.mem, root, 2, va2, c, l)
    ensures c in tree && tree[c].level == l
    ensures forall k :: l < k <= 2 ==> Vpn(va, k) == Vpn(va2, k)
  {
    if l < 2 {
      assert GoodEntry(h, tree, root, Vpn(va, 2)) && GoodEntry(h, tree, root, Vpn(va2, 2));
      if l < 1 {
        var t1, t2 := PageOf(h.mem[root][Vpn(va, 2)]), PageOf(h.mem[root][Vpn(va2, 2)]);
        assert GoodEntry(h, tree, t1, Vpn(va, 1)) && GoodEntry(h, tree, t2, Vpn(va2, 1));
      }
    }
  }
}
