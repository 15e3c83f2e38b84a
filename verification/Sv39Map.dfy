/** What one `map` call does to every address and to the tree of tables. */
module Sv39Map {
  import opened PageFrame
  import opened Sv39

  // ---------------------------------------------------------------- one changed entry

  /** `mem'` has all the tables of the tree, and differs from `mem` on them at most in entry `j` of `c`. */
  ghost predicate AgreeOff(mem: map<nat, seq<nat>>, mem': map<nat, seq<nat>>, tree: Tree, c: nat, j: nat) {
    forall q :: q in tree ==>
      && q in mem && q in mem' && |mem[q]| == |mem'[q]| == 512
      && forall i :: 0 <= i < 512 && !(q == c && i == j) ==> mem'[q][i] == mem[q][i]
  }

  /** A walk is unaffected unless it goes through the changed entry. */
  lemma {:induction false} LookupFrame(h: Phys, root: nat, tree: Tree, mem': map<nat, seq<nat>>, p: nat, k: nat,
                                       va: nat, c: nat, j: nat)
    requires Shaped(h, root, tree) && AgreeOff(h.mem, mem', tree, c, j)
    requires p in tree && tree[p].level == k && c in tree
    ensures Lookup(mem', p, k, va) == Lookup(h.mem, p, k, va)
      || (Reaches(h.mem, p, k, va, c, tree[c].level) && Vpn(va, tree[c].level) == j)
    decreases k
  {
    var i := Vpn(va, k);
    if p == c && i == j {
    } else {
      var e := h.mem[p][i];
      assert GoodEntry(h, tree, p, i);
      if IsBranch(e) && k > 0 {
        LookupFrame(h, root, tree, mem', PageOf(e), k - 1, va, c, j);
      }
    }
  }

  /** The tables above a table are not that table, so changing one of its entries keeps the way to it. */
  lemma {:induction false} ReachesFrame(h: Phys, root: nat, tree: Tree, mem': map<nat, seq<nat>>, p: nat, k: nat,
                                        va: nat, c: nat, j: nat)
    requires Shaped(h, root, tree) && AgreeOff(h.mem, mem', tree, c, j)
    requires p in tree && tree[p].level == k && c in tree
    requires Reaches(h.mem, p, k, va, c, tree[c].level)
    ensures Reaches(mem', p, k, va, c, tree[c].level)
    decreases k
  {
    if k > tree[c].level {
      assert GoodEntry(h, tree, p, Vpn(va, k));
      ReachesFrame(h, root, tree, mem', PageOf(h.mem[p][Vpn(va, k)]), k - 1, va, c, j);
    }
  }

  /** A walk goes on from any table it reaches. */
  lemma {:induction false} LookupVia(mem: map<nat, seq<nat>>, p: nat, k: nat, va: nat, c: nat, l: nat)
    requires k <= 2 && Reaches(mem, p, k, va, c, l)
    ensures l <= k && Lookup(mem, p, k, va) == Lookup(mem, c, l, va)
    decreases k
  {
    if k > l {
      LookupVia(mem, PageOf(mem[p][Vpn(va, k)]), k - 1, va, c, l);
    }
  }

  lemma {:induction false} ReachesAlike(mem: map<nat, seq<nat>>, p: nat, k: nat, va: nat, va2: nat, c: nat, l: nat)
    requires k <= 2 && Reaches(mem, p, k, va, c, l)
    requires forall m :: l < m <= k ==> Vpn(va, m) == Vpn(va2, m)
    ensures Reaches(mem, p, k, va2, c, l)
    decreases k
  {
    if k > l {
      assert Vpn(va, k) == Vpn(va2, k);
      ReachesAlike(mem, PageOf(mem[p][Vpn(va, k)]), k - 1, va, va2, c, l);
    }
  }

  /** Changing the entry that `va` uses in table `c` sends the addresses of its region through the
      new entry and leaves the walk of every other address alone. */
  lemma OneEntry(h: Phys, root: nat, tree: Tree, mem': map<nat, seq<nat>>, va: nat, c: nat, va2: nat)
    requires Shaped(h, root, tree) && c in tree
    requires var l := tree[c].level; Reaches(h.mem, root, 2, va, c, l) && AgreeOff(h.mem, mem', tree, c, Vpn(va, l))
    ensures var l := tree[c].level;
      if SameRegion(va, va2, l)
      then Vpn(va2, l) == Vpn(va, l)
        && Lookup(h.mem, root, 2, va2) == Lookup(h.mem, c, l, va2)
        && Lookup(mem', root, 2, va2) == Lookup(mem', c, l, va2)
      else Lookup(mem', root, 2, va2) == Lookup(h.mem, root, 2, va2)
  {
    var l := tree[c].level;
    SameRegionVpn(va, va2, l);
    if SameRegion(va, va2, l) {
      ReachesAlike(h.mem, root, 2, va, va2, c, l);
      LookupVia(h.mem, root, 2, va2, c, l);
      ReachesFrame(h, root, tree, mem', root, 2, va2, c, Vpn(va, l));
      LookupVia(mem', root, 2, va2, c, l);
    } else {
      LookupFrame(h, root, tree, mem', root, 2, va2, c, Vpn(va, l));
      if Reaches(h.mem, root, 2, va2, c, l) && Vpn(va2, l) == Vpn(va, l) {
        PathUnique(h, root, tree, va, va2, c, l);
        assert false;
      }
    }
  }

  // ---------------------------------------------------------------- growing the tree

  /** What a `map` may change besides the tables: it takes free pages for new tables, and nothing else. */
  ghost predicate Grows(h: Phys, tree: Tree, h': Phys, tree': Tree) {
    && h'.base == h.base && h'.end == h.end && |h'.desc| == |h.desc| && h'.mem.Keys == h.mem.Keys
    && (forall q :: q in tree ==> q in tree' && tree'[q] == tree[q])
    && (forall i :: 0 <= i < |h.desc| ==>
          if h.base + i in tree' && h.base + i !in tree then h.desc[i] == 0 && h'.desc[i] == 3
          else h'.desc[i] == h.desc[i])
    && (forall q :: q in h.mem && q !in tree' ==> h'.mem[q] == h.mem[q])
  }

  lemma GrowsTransitive(h0: Phys, t0: Tree, h1: Phys, t1: Tree, h2: Phys, t2: Tree)
    requires Grows(h0, t0, h1, t1) && Grows(h1, t1, h2, t2)
    ensures Grows(h0, t0, h2, t2)
  {
  }

  /** The new table hangs from the invalid entry it was allocated for. */
  ghost function LinkTable(h: Phys, p: nat, i: nat, page: nat): Phys
    requires TakePage(h).Done? && p in TakePage(h).value.0.mem && i < |TakePage(h).value.0.mem[p]|
  {
    var h1 := TakePage(h).value.0;
    h1.(mem := SetEntry(h1.mem, p, i, BranchPte(page)))
  }

  lemma TakenPageFacts(h: Phys)
    requires PhysOk(h) && TakePage(h).Done?
    ensures var (h1, page) := TakePage(h).value;
      && h.base <= page < h.base + |h.desc| && page in h.mem
      && PhysOk(h1) && h1.base == h.base && h1.end == h.end && |h1.desc| == |h.desc|
      && h.desc[page - h.base] == 0 && OwnedPage(h1, page)
      && (forall i :: 0 <= i < |h.desc| && i != page - h.base ==> h1.desc[i] == h.desc[i])
      && h1.mem == h.mem[page := ZeroPage()]
  {
    var s := FirstFit(h.desc, 1, 0).value;
    FreeWindowZero(h.desc, s, 1);
    MarkRunBytes(h.desc, s, 1);
    MarkRunWellFormed(h.desc, s, 1);
    assert s > 0 ==> Cell(h.desc, s - 1);
  }

  lemma BranchPteFacts(page: nat)
    requires page < 0x10_0000_0000_0000
    ensures IsBranch(BranchPte(page)) && PageOf(BranchPte(page)) == page
  {
  }

  /** `h'` is `h` with the free page `page` zeroed, owned, and linked from entry `i` of table `p`. */
  ghost predicate LinkRel(h: Phys, h': Phys, p: nat, i: nat, page: nat)
  {
    && p in h.mem && |h.mem[p]| == 512 && i < 512 && page != p
    && h.base <= page < h.base + |h.desc| && page in h.mem
    && PhysOk(h') && h'.base == h.base && h'.end == h.end && |h'.desc| == |h.desc| && h'.mem.Keys == h.mem.Keys
    && h.desc[page - h.base] == 0 && OwnedPage(h', page)
    && (forall m :: 0 <= m < |h.desc| && m != page - h.base ==> h'.desc[m] == h.desc[m])
    && h'.mem[page] == ZeroPage()
    && |h'.mem[p]| == 512 && h'.mem[p][i] == BranchPte(page)
    && (forall m :: 0 <= m < 512 && m != i ==> h'.mem[p][m] == h.mem[p][m])
    && (forall q :: q in h.mem && q != page && q != p ==> h'.mem[q] == h.mem[q])
  }

  lemma LinkTableRel(h: Phys, root: nat, tree: Tree, p: nat, i: nat)
    requires Shaped(h, root, tree) && p in tree && i < 512 && TakePage(h).Done?
    ensures p in TakePage(h).value.0.mem && |TakePage(h).value.0.mem[p]| == 512
    ensures TakePage(h).value.1 !in tree
    ensures LinkRel(h, LinkTable(h, p, i, TakePage(h).value.1), p, i, TakePage(h).value.1)
  {
    hide TakePage, BranchPte, FirstFit, MarkRun, WellFormed;
    TakenPageFacts(h);
    var (h1, page) := TakePage(h).value;
    assert OwnedPage(h, p);
    assert forall q :: q in tree ==> OwnedPage(h, q);
  }

  lemma LinkShape(h: Phys, h': Phys, root: nat, tree: Tree, p: nat, i: nat, page: nat)
    requires Shaped(h, root, tree) && p in tree && tree[p].level > 0 && page !in tree
    requires LinkRel(h, h', p, i, page)
    ensures Shaped(h', root, tree[page := Node(tree[p].level - 1, p, i)])
  {
    var tree' := tree[page := Node(tree[p].level - 1, p, i)];
    forall q | q in tree' ensures tree'[q].level <= 2 && OwnedPage(h', q) {
      if q != page { assert OwnedPage(h, q); }
    }
    forall q, m | q in tree' && 0 <= m < 512 ensures GoodEntry(h', tree', q, m) {
      BranchPteFacts(page);
      if q != page {
        assert OwnedPage(h, q) && GoodEntry(h, tree, q, m);
      }
    }
  }

  lemma LinkGrows(h: Phys, h': Phys, root: nat, tree: Tree, p: nat, i: nat, page: nat)
    requires Shaped(h, root, tree) && p in tree && tree[p].level > 0 && page !in tree
    requires LinkRel(h, h', p, i, page)
    ensures Grows(h, tree, h', tree[page := Node(tree[p].level - 1, p, i)])
    ensures AgreeOff(h.mem, h'.mem, tree, p, i)
  {
    forall q | q in tree ensures q in h.mem && q in h'.mem && |h.mem[q]| == |h'.mem[q]| == 512 {
      assert OwnedPage(h, q);
    }
  }

  lemma LinkLinked(h: Phys, h': Phys, root: nat, tree: Tree, p: nat, i: nat, page: nat)
    requires Shaped(h, root, tree) && p in tree && tree[p].level > 0 && page !in tree
    requires LinkRel(h, h', p, i, page) && !IsValid(h.mem[p][i]) && Linked(h, root, tree)
    requires Shaped(h', root, tree[page := Node(tree[p].level - 1, p, i)])
    ensures Linked(h', root, tree[page := Node(tree[p].level - 1, p, i)])
  {
    var tree' := tree[page := Node(tree[p].level - 1, p, i)];
    forall q | q in tree' && q != root
      ensures tree'[q].level < 2 && tree'[q].index < 512 && tree'[q].parent in tree'
      ensures IsBranch(h'.mem[tree'[q].parent][tree'[q].index]) && PageOf(h'.mem[tree'[q].parent][tree'[q].index]) == q
    {
      if q == page {
        BranchPteFacts(page);
      } else {
        StillLinked(h, h', root, tree, p, i, page, q);
      }
    }
  }

  lemma StillLinked(h: Phys, h': Phys, root: nat, tree: Tree, p: nat, i: nat, page: nat, q: nat)
    requires Shaped(h, root, tree) && p in tree && page !in tree && q in tree && q != root
    requires LinkRel(h, h', p, i, page) && !IsValid(h.mem[p][i]) && Linked(h, root, tree)
    ensures tree[q].level < 2 && tree[q].index < 512 && tree[q].parent in tree
    ensures tree[q].parent in h'.mem && |h'.mem[tree[q].parent]| == 512
    ensures var e := h'.mem[tree[q].parent][tree[q].index]; IsBranch(e) && PageOf(e) == q
  {
    hide BranchPte, IsLeaf, PageOf;
    assert OwnedPage(h, tree[q].parent);
  }

  // ---------------------------------------------------------------- the whole call

  /** No leaf sits above `level` on the way of `va`. */
  ghost predicate PathClear(mem: map<nat, seq<nat>>, p: nat, k: nat, va: nat, level: nat)
    requires k <= 2
    decreases k
  {
    k <= level || (
      && p in mem && |mem[p]| == 512
      && var e := mem[p][Vpn(va, k)];
         IsValid(e) ==> !IsLeaf(e) && PathClear(mem, PageOf(e), k - 1, va, level))
  }

  /** The entry `map` overwrites is not itself the link to a table. */
  ghost predicate NoOverwrite(mem: map<nat, seq<nat>>, p: nat, k: nat, va: nat, level: nat)
    requires k <= 2
    decreases k
  {
    p in mem && |mem[p]| == 512 &&
    var e := mem[p][Vpn(va, k)];
    IsBranch(e) ==> k > level && NoOverwrite(mem, PageOf(e), k - 1, va, level)
  }

  /** A leaf in one entry of a table keeps the shape of the tree, and its links unless the entry was one. */
  lemma WriteShape(h: Phys, h': Phys, root: nat, tree: Tree, p: nat, i: nat, leaf: nat)
    requires Shaped(h, root, tree) && p in tree && p in h.mem && |h.mem[p]| == 512 && i < 512
    requires h' == h.(mem := SetEntry(h.mem, p, i, leaf)) && IsValid(leaf) && IsLeaf(leaf)
    ensures Shaped(h', root, tree) && Grows(h, tree, h', tree) && AgreeOff(h.mem, h'.mem, tree, p, i)
    ensures Linked(h, root, tree) && !IsBranch(h.mem[p][i]) ==> Linked(h', root, tree)
  {
    hide PageOf, BranchPte;
    forall q | q in tree ensures OwnedPage(h', q) {
      assert OwnedPage(h, q);
    }
    forall q, m | q in tree && 0 <= m < 512 ensures GoodEntry(h', tree, q, m) {
      assert GoodEntry(h, tree, q, m);
    }
  }

  lemma WriteLeaf(h: Phys, root: nat, tree: Tree, p: nat, va: nat, leaf: nat) returns (h': Phys)
    requires Shaped(h, root, tree) && p in tree && Reaches(h.mem, root, 2, va, p, tree[p].level)
    requires IsValid(leaf) && IsLeaf(leaf)
    ensures var l := tree[p].level;
      && p in h.mem && |h.mem[p]| == 512
      && h' == h.(mem := SetEntry(h.mem, p, Vpn(va, l), leaf))
      && Shaped(h', root, tree) && Grows(h, tree, h', tree)
      && Remapped(h.mem, h'.mem, root, va, leaf, l)
      && (Linked(h, root, tree) && !IsBranch(h.mem[p][Vpn(va, l)]) ==> Linked(h', root, tree))
  {
    var l := tree[p].level;
    var i := Vpn(va, l);
    assert OwnedPage(h, p);
    h' := h.(mem := SetEntry(h.mem, p, i, leaf));
    hide Vpn, IsLeaf, IsValid;
    WriteShape(h, h', root, tree, p, i, leaf);
    hide Shaped, Linked, Grows, OwnedPage, Lookup, SetEntry;
    forall va2: nat ensures Lookup(h'.mem, root, 2, va2) ==
      (if SameRegion(va, va2, l) then Leaf(leaf, l) else Lookup(h.mem, root, 2, va2))
    {
      OneEntry(h, root, tree, h'.mem, va, p, va2);
    }
  }

  /** Linking a zeroed table changes no translation. */
  lemma LinkLookup(h: Phys, h': Phys, root: nat, tree: Tree, p: nat, va: nat, page: nat, va2: nat)
    requires Shaped(h, root, tree) && p in tree && tree[p].level > 0
    requires Reaches(h.mem, root, 2, va, p, tree[p].level)
    requires LinkRel(h, h', p, Vpn(va, tree[p].level), page) && AgreeOff(h.mem, h'.mem, tree, p, Vpn(va, tree[p].level))
    requires !IsValid(h.mem[p][Vpn(va, tree[p].level)])
    ensures Lookup(h'.mem, root, 2, va2) == Lookup(h.mem, root, 2, va2)
  {
    OneEntry(h, root, tree, h'.mem, va, p, va2);
    var l := tree[p].level;
    if SameRegion(va, va2, l) {
      BranchPteFacts(page);
      assert Lookup(h'.mem, page, l - 1, va2) == Hole;
    }
  }

  lemma LinkReaches(h: Phys, h': Phys, root: nat, tree: Tree, p: nat, va: nat, page: nat)
    requires Shaped(h, root, tree) && p in tree && tree[p].level > 0
    requires Reaches(h.mem, root, 2, va, p, tree[p].level)
    requires LinkRel(h, h', p, Vpn(va, tree[p].level), page) && AgreeOff(h.mem, h'.mem, tree, p, Vpn(va, tree[p].level))
    ensures Reaches(h'.mem, root, 2, va, page, tree[p].level - 1)
  {
    var l := tree[p].level;
    BranchPteFacts(page);
    ReachesFrame(h, root, tree, h'.mem, root, 2, va, p, Vpn(va, l));
    ReachesOneMore(h'.mem, root, 2, va, p, l);
  }

  lemma {:induction false} ReachesOneMore(mem: map<nat, seq<nat>>, p: nat, k: nat, va: nat, c: nat, l: nat)
    requires 0 < l <= k <= 2 && Reaches(mem, p, k, va, c, l)
    requires c in mem && |mem[c]| == 512 && IsBranch(mem[c][Vpn(va, l)])
    ensures Reaches(mem, p, k, va, PageOf(mem[c][Vpn(va, l)]), l - 1)
    decreases k
  {
    if k > l {
      ReachesOneMore(mem, PageOf(mem[p][Vpn(va, k)]), k - 1, va, c, l);
    }
  }

  /** Every address of the region finds the new leaf, every other address what it found before. */
  ghost predicate Remapped(mem: map<nat, seq<nat>>, mem': map<nat, seq<nat>>, root: nat, va: nat, leaf: nat, level: nat)
    requires level <= 2
  {
    forall va2: nat :: Lookup(mem', root, 2, va2) ==
      (if SameRegion(va, va2, level) then Leaf(leaf, level) else Lookup(mem, root, 2, va2))
  }

  lemma {:induction false} MapAtCorrect(h: Phys, root: nat, tree: Tree, p: nat, k: nat, va: nat, leaf: nat, level: nat)
    returns (h': Phys, tree': Tree)
    requires Shaped(h, root, tree) && p in tree && tree[p].level == k && level <= k
    requires Reaches(h.mem, root, 2, va, p, k) && PathClear(h.mem, p, k, va, level)
    requires IsValid(leaf) && IsLeaf(leaf)
    requires MapAt(h, p, k, va, leaf, level).Done?
    ensures MapAt(h, p, k, va, leaf, level) == Done(h')
    ensures Shaped(h', root, tree') && Grows(h, tree, h', tree')
    ensures Remapped(h.mem, h'.mem, root, va, leaf, level)
    ensures Linked(h, root, tree) && NoOverwrite(h.mem, p, k, va, level) ==> Linked(h', root, tree')
    decreases k
  {
    var i := Vpn(va, k);
    assert OwnedPage(h, p);
    var e := h.mem[p][i];
    if k == level {
      h' := WriteLeaf(h, root, tree, p, va, leaf);
      tree' := tree;
    } else if IsValid(e) {
      assert GoodEntry(h, tree, p, i);
      ReachesOneMore(h.mem, root, 2, va, p, k);
      h', tree' := MapAtCorrect(h, root, tree, PageOf(e), k - 1, va, leaf, level);
    } else {
      h', tree' := MapGrowCorrect(h, root, tree, p, k, va, leaf, level);
    }
  }

  /** Every address finds what it found before. */
  ghost predicate SameLookup(mem: map<nat, seq<nat>>, mem': map<nat, seq<nat>>, root: nat) {
    forall va: nat :: Lookup(mem', root, 2, va) == Lookup(mem, root, 2, va)
  }

  /** The growing step: a zeroed table appears under the invalid entry and no address notices. */
  lemma GrowStep(h: Phys, root: nat, tree: Tree, p: nat, k: nat, va: nat) returns (h1: Phys, page: nat, tree1: Tree)
    requires Shaped(h, root, tree) && p in tree && tree[p].level == k && k > 0
    requires Reaches(h.mem, root, 2, va, p, k)
    requires p in h.mem && |h.mem[p]| == 512 && !IsValid(h.mem[p][Vpn(va, k)])
    requires TakePage(h).Done?
    ensures page == TakePage(h).value.1
    ensures p in TakePage(h).value.0.mem && |TakePage(h).value.0.mem[p]| == 512
    ensures h1 == LinkTable(h, p, Vpn(va, k), page)
    ensures Shaped(h1, root, tree1) && Grows(h, tree, h1, tree1) && SameLookup(h.mem, h1.mem, root)
    ensures page in tree1 && tree1[page].level == k - 1 && Reaches(h1.mem, root, 2, va, page, k - 1)
    ensures page in h1.mem && h1.mem[page] == ZeroPage()
    ensures Linked(h, root, tree) ==> Linked(h1, root, tree1)
  {
    var i := Vpn(va, k);
    page := TakePage(h).value.1;
    LinkTableRel(h, root, tree, p, i);
    h1 := LinkTable(h, p, i, page);
    tree1 := tree[page := Node(k - 1, p, i)];
    LinkShape(h, h1, root, tree, p, i, page);
    LinkGrows(h, h1, root, tree, p, i, page);
    LinkReaches(h, h1, root, tree, p, va, page);
    if Linked(h, root, tree) {
      LinkLinked(h, h1, root, tree, p, i, page);
    }
    forall va2: nat ensures Lookup(h1.mem, root, 2, va2) == Lookup(h.mem, root, 2, va2) {
      LinkLookup(h, h1, root, tree, p, va, page, va2);
    }
  }

  lemma MapAtGrows(h: Phys, p: nat, k: nat, va: nat, leaf: nat, level: nat)
    requires level < k <= 2 && p in h.mem && |h.mem[p]| == 512 && !IsValid(h.mem[p][Vpn(va, k)])
    requires TakePage(h).Done? && p in TakePage(h).value.0.mem && |TakePage(h).value.0.mem[p]| == 512
    ensures MapAt(h, p, k, va, leaf, level)
         == MapAt(LinkTable(h, p, Vpn(va, k), TakePage(h).value.1), TakePage(h).value.1, k - 1, va, leaf, level)
  {
  }

  lemma RemappedAfterGrow(mem: map<nat, seq<nat>>, mem1: map<nat, seq<nat>>, mem2: map<nat, seq<nat>>, root: nat,
                          va: nat, leaf: nat, level: nat)
    requires level <= 2 && SameLookup(mem, mem1, root) && Remapped(mem1, mem2, root, va, leaf, level)
    ensures Remapped(mem, mem2, root, va, leaf, level)
  {
  }

  lemma {:induction false} MapGrowCorrect(h: Phys, root: nat, tree: Tree, p: nat, k: nat, va: nat, leaf: nat,
                                          level: nat)
    returns (h': Phys, tree': Tree)
    requires Shaped(h, root, tree) && p in tree && tree[p].level == k && level < k
    requires Reaches(h.mem, root, 2, va, p, k)
    requires p in h.mem && |h.mem[p]| == 512 && !IsValid(h.mem[p][Vpn(va, k)])
    requires IsValid(leaf) && IsLeaf(leaf)
    requires MapAt(h, p, k, va, leaf, level).Done?
    ensures MapAt(h, p, k, va, leaf, level) == Done(h')
    ensures Shaped(h', root, tree') && Grows(h, tree, h', tree')
    ensures Remapped(h.mem, h'.mem, root, va, leaf, level)
    ensures Linked(h, root, tree) ==> Linked(h', root, tree')
    decreases k, 0
  {
    assert TakePage(h).Done?;
    hide *;
    var h1, page, tree1 := GrowStep(h, root, tree, p, k, va);
    MapAtGrows(h, p, k, va, leaf, level);
    ZeroTableClear(h1.mem, page, k - 1, va, level);
    h', tree' := MapAtCorrect(h1, root, tree1, page, k - 1, va, leaf, level);
    GrowsTransitive(h, tree, h1, tree1, h', tree');
    RemappedAfterGrow(h.mem, h1.mem, h'.mem, root, va, leaf, level);
  }

  lemma ZeroTableClear(mem: map<nat, seq<nat>>, p: nat, k: nat, va: nat, level: nat)
    requires k <= 2 && p in mem && mem[p] == ZeroPage()
    ensures PathClear(mem, p, k, va, level) && NoOverwrite(mem, p, k, va, level)
  {
  }

  // ---------------------------------------------------------------- the theorem about one call

  function Clamp(level: nat): (l: nat)
    ensures l <= 2
  {
    if level < 2 then level else 2
  }

  lemma LeafPteFacts(pa: nat, bits: nat, level: nat, va: nat)
    requires LeafFlags(bits) && level <= 2
    ensures IsValid(LeafPte(pa, bits)) && IsLeaf(LeafPte(pa, bits))
    ensures LeafAddr(LeafPte(pa, bits), level, va) == pa % TWO56 / Unit(level) * Unit(level) + va % Unit(level)
  {
    var w := pa % TWO56;
    var e := LeafPte(pa, bits);
    LeafWordParts(pa, bits);
    hide LeafPte, LeafFlags, IsValid, IsLeaf;
    SameUnit(e * 4, w, level);
  }

  lemma LeafWordParts(pa: nat, bits: nat)
    requires LeafFlags(bits)
    ensures var e := LeafPte(pa, bits);
      IsValid(e) && IsLeaf(e) && e * 4 % Bits.TWO64 == e * 4 && e * 4 / 0x1000 == pa % TWO56 / 0x1000
  {
    var page := pa % TWO56 / 0x1000;
    var b := if bits % 2 == 1 then bits else bits + 1;
    var e := LeafPte(pa, bits);
    assert e == page * 1024 + b && e * 4 == page * 0x1000 + 4 * b;
    assert e / 2 == page * 512 + b / 2 && b / 2 == bits / 2;
  }

  lemma SameUnit(x: nat, w: nat, level: nat)
    requires level <= 2 && x / 0x1000 == w / 0x1000
    ensures x / Unit(level) == w / Unit(level)
  {
    var page := w / 0x1000;
    if level == 1 {
      assert x / 0x20_0000 == page / 512 == w / 0x20_0000;
    } else if level == 2 {
      assert x / 0x4000_0000 == page / 0x4_0000 == w / 0x4000_0000;
    }
  }

  /** The address view of a call: a region that translates linearly, and the rest as before. */
  ghost predicate Retranslated(mem: map<nat, seq<nat>>, mem': map<nat, seq<nat>>, root: nat, va: nat, pa: nat,
                               level: nat)
    requires level <= 2
  {
    forall va2: nat :: V2p(mem', root, va2) ==
      (if SameRegion(va, va2, level) then Mapped(pa % TWO56 / Unit(level) * Unit(level) + va2 % Unit(level))
       else V2p(mem, root, va2))
  }

  lemma RemappedTranslates(mem: map<nat, seq<nat>>, mem': map<nat, seq<nat>>, root: nat, va: nat, pa: nat, bits: nat,
                           level: nat)
    requires level <= 2 && LeafFlags(bits) && Remapped(mem, mem', root, va, LeafPte(pa, bits), level)
    ensures Retranslated(mem, mem', root, va, pa, level)
  {
    forall va2: nat ensures V2p(mem', root, va2) ==
      (if SameRegion(va, va2, level) then Mapped(pa % TWO56 / Unit(level) * Unit(level) + va2 % Unit(level))
       else V2p(mem, root, va2))
    {
      hide Unit, LeafPte, Vpn;
      LeafPteFacts(pa, bits, level, va2);
    }
  }

  /** After `map` every address of the covered region translates to the physical base with its low
      bits cleared plus the offset, every other address translates as before, the tables still form
      a tree of distinct allocator pages, and only free pages were taken for new tables. */
  lemma MapTranslates(h: Phys, root: nat, tree: Tree, va: nat, pa: nat, bits: nat, level: nat)
    returns (h': Phys, tree': Tree)
    requires Shaped(h, root, tree) && LeafFlags(bits)
    requires PathClear(h.mem, root, 2, va, level) && Map(h, root, va, pa, bits, level).Done?
    ensures Map(h, root, va, pa, bits, level) == Done(h')
    ensures Shaped(h', root, tree') && Grows(h, tree, h', tree')
    ensures Remapped(h.mem, h'.mem, root, va, LeafPte(pa, bits), Clamp(level))
    ensures Retranslated(h.mem, h'.mem, root, va, pa, Clamp(level))
    ensures Linked(h, root, tree) && NoOverwrite(h.mem, root, 2, va, level) ==> Linked(h', root, tree')
  {
    var l := Clamp(level);
    var leaf := LeafPte(pa, bits);
    ClampLevel(h, root, va, leaf, level);
    assert tree[root].level == 2;
    assert Reaches(h.mem, root, 2, va, root, 2);
    assert Map(h, root, va, pa, bits, level) == MapAt(h, root, 2, va, leaf, level);
    hide *;
    LeafPteFacts(pa, bits, l, va);
    h', tree' := MapAtCorrect(h, root, tree, root, 2, va, leaf, l);
    RemappedTranslates(h.mem, h'.mem, root, va, pa, bits, l);
  }

  /** Any level from 2 up puts the leaf in the root table. */
  lemma ClampLevel(h: Phys, root: nat, va: nat, leaf: nat, level: nat)
    ensures MapAt(h, root, 2, va, leaf, level) == MapAt(h, root, 2, va, leaf, Clamp(level))
    ensures NoOverwrite(h.mem, root, 2, va, level) <==> NoOverwrite(h.mem, root, 2, va, Clamp(level))
    ensures PathClear(h.mem, root, 2, va, level) <==> PathClear(h.mem, root, 2, va, Clamp(level))
  {
  }

  /** Inside a tree of tables the walk never leaves RAM. */
  lemma {:induction false} NoWildWalk(h: Phys, root: nat, tree: Tree, p: nat, k: nat, va: nat)
    requires Shaped(h, root, tree) && p in tree && tree[p].level == k
    ensures Lookup(h.mem, p, k, va) != Wild
    decreases k
  {
    assert OwnedPage(h, p);
    var e := h.mem[p][Vpn(va, k)];
    assert GoodEntry(h, tree, p, Vpn(va, k));
    if IsBranch(e) && k > 0 {
      NoWildWalk(h, root, tree, PageOf(e), k - 1, va);
    }
  }

  // ---------------------------------------------------------------- success

  lemma RoomToTake(h: Phys, room: nat)
    requires room <= |h.desc| && (forall q :: h.base <= q < h.base + room ==> q in h.mem) && FreeBelow(h.desc, room) > 0
    ensures TakePage(h).Done?
  {
    hide FreeBelow;
    FreeBelowSome(h.desc, room);
  }

  lemma RoomAfter(h: Phys, p: nat, i: nat, room: nat)
    requires TakePage(h).Done? && p in TakePage(h).value.0.mem && |TakePage(h).value.0.mem[p]| == 512 && i < 512
    requires room <= |h.desc| && (forall q :: h.base <= q < h.base + room ==> q in h.mem)
    ensures var h1 := LinkTable(h, p, i, TakePage(h).value.1);
      && room <= |h1.desc| && h1.base == h.base && (forall q :: h1.base <= q < h1.base + room ==> q in h1.mem)
      && FreeBelow(h1.desc, room) >= FreeBelow(h.desc, room) - 1
  {
    hide FreeBelow;
    FreeBelowMark(h.desc, FirstFit(h.desc, 1, 0).value, room);
  }

  /** Where a table is already there, the walk goes on in it. */
  lemma StepDown(h: Phys, root: nat, tree: Tree, p: nat, k: nat, va: nat, leaf: nat, level: nat)
    requires Shaped(h, root, tree) && p in tree && tree[p].level == k && level < k <= 2
    requires Reaches(h.mem, root, 2, va, p, k)
    requires PathClear(h.mem, p, k, va, level) && p in h.mem && |h.mem[p]| == 512 && IsValid(h.mem[p][Vpn(va, k)])
    ensures var q := PageOf(h.mem[p][Vpn(va, k)]);
      && q in tree && tree[q].level == k - 1 && Reaches(h.mem, root, 2, va, q, k - 1)
      && PathClear(h.mem, q, k - 1, va, level)
      && MapAt(h, p, k, va, leaf, level) == MapAt(h, q, k - 1, va, leaf, level)
  {
    assert GoodEntry(h, tree, p, Vpn(va, k));
    ReachesOneMore(h.mem, root, 2, va, p, k);
    hide Shaped, Reaches, TakePage;
  }

  lemma MapAtLeaf(h: Phys, p: nat, k: nat, va: nat, leaf: nat, level: nat)
    requires k <= level && k <= 2 && p in h.mem && |h.mem[p]| == 512
    ensures MapAt(h, p, k, va, leaf, level).Done?
  {
  }

  /** A call that passes no leaf succeeds when enough of the descriptors that name RAM pages are
      free: one per missing table. */
  lemma {:induction false} MapSucceeds(h: Phys, root: nat, tree: Tree, p: nat, k: nat, va: nat, leaf: nat, level: nat,
                                       room: nat)
    requires Shaped(h, root, tree) && p in tree && tree[p].level == k && Reaches(h.mem, root, 2, va, p, k)
    requires PathClear(h.mem, p, k, va, level) && level <= k
    requires room <= |h.desc| && (forall q :: h.base <= q < h.base + room ==> q in h.mem)
    requires FreeBelow(h.desc, room) >= k - level
    ensures MapAt(h, p, k, va, leaf, level).Done?
    decreases k
  {
    assert p in h.mem && |h.mem[p]| == 512 by { assert OwnedPage(h, p); }
    hide *;
    if k <= level {
      MapAtLeaf(h, p, k, va, leaf, level);
    } else if IsValid(h.mem[p][Vpn(va, k)]) {
      StepDown(h, root, tree, p, k, va, leaf, level);
      MapSucceeds(h, root, tree, PageOf(h.mem[p][Vpn(va, k)]), k - 1, va, leaf, level, room);
    } else {
      var h1, page, tree1 := GrowWithRoom(h, root, tree, p, k, va, leaf, level, room);
      MapSucceeds(h1, root, tree1, page, k - 1, va, leaf, level, room);
    }
  }

  /** Where a table is missing and a page is free, the walk goes on in a new one. */
  lemma GrowWithRoom(h: Phys, root: nat, tree: Tree, p: nat, k: nat, va: nat, leaf: nat, level: nat, room: nat)
    returns (h1: Phys, page: nat, tree1: Tree)
    requires Shaped(h, root, tree) && p in tree && tree[p].level == k && level < k <= 2
    requires Reaches(h.mem, root, 2, va, p, k)
    requires p in h.mem && |h.mem[p]| == 512 && !IsValid(h.mem[p][Vpn(va, k)])
    requires room <= |h.desc| && (forall q :: h.base <= q < h.base + room ==> q in h.mem) && FreeBelow(h.desc, room) > 0
    ensures Shaped(h1, root, tree1) && page in tree1 && tree1[page].level == k - 1
    ensures Reaches(h1.mem, root, 2, va, page, k - 1)
    ensures PathClear(h1.mem, page, k - 1, va, level) && room <= |h1.desc|
    ensures (forall q :: h1.base <= q < h1.base + room ==> q in h1.mem)
    ensures FreeBelow(h1.desc, room) >= FreeBelow(h.desc, room) - 1
    ensures MapAt(h, p, k, va, leaf, level) == MapAt(h1, page, k - 1, va, leaf, level)
  {
    hide *;
    RoomToTake(h, room);
    h1, page, tree1 := GrowStep(h, root, tree, p, k, va);
    RoomAfter(h, p, Vpn(va, k), room);
    MapAtGrows(h, p, k, va, leaf, level);
    ZeroTableClear(h1.mem, page, k - 1, va, level);
  }
}
