/** Tearing the tables down: `unmap` releases every table below the root and nothing else. */
module Sv39Unmap {
  import opened PageFrame
  import opened Sv39
  import opened Sv39Map

  // ---------------------------------------------------------------- the operation

  /** Release the run that starts at physical page `page`; outside the heap it panics. */
  function Release(h: Phys, page: nat): Outcome<Phys> {
    if !(h.base <= page < h.end) then Panic
    else match FreeFrom(h.desc, page - h.base)
      case None => Panic
      case Some(d) => Done(h.(desc := d))
  }

  /** Entries `j..` of the level-1 table `t`: release the tables they link and clear the links. */
  function UnmapInner(h: Phys, t: nat, j: nat): (r: Outcome<Phys>)
    requires j <= 512
    ensures r.Done? ==> t in r.value.mem && |r.value.mem[t]| == 512
    decreases 512 - j
  {
    if t !in h.mem || |h.mem[t]| != 512 then BadAccess
    else if j == 512 then Done(h)
    else
      var e := h.mem[t][j];
      if !IsBranch(e) then UnmapInner(h, t, j + 1)
      else match Release(h, PageOf(e))
        case Done(h1) => UnmapInner(h1.(mem := SetEntry(h1.mem, t, j, 0)), t, j + 1)
        case OutOfMemory => OutOfMemory
        case BadAccess => BadAccess
        case Panic => Panic
  }

  /** One root entry: nothing for a leaf or an invalid entry, otherwise the whole subtree goes. */
  function UnmapEntry(h: Phys, root: nat, i: nat): (r: Outcome<Phys>)
    requires root in h.mem && |h.mem[root]| == 512 && i < 512
  {
    var e := h.mem[root][i];
    if !IsBranch(e) then Done(h)
    else match UnmapInner(h, PageOf(e), 0)
      case OutOfMemory => OutOfMemory
      case BadAccess => BadAccess
      case Panic => Panic
      case Done(h1) =>
        match Release(h1, PageOf(e))
        case OutOfMemory => OutOfMemory
        case BadAccess => BadAccess
        case Panic => Panic
        case Done(h2) =>
          if root in h2.mem && |h2.mem[root]| == 512 then Done(h2.(mem := SetEntry(h2.mem, root, i, 0))) else BadAccess
  }

  function UnmapFrom(h: Phys, root: nat, i: nat): (r: Outcome<Phys>)
    requires i <= 512
    decreases 512 - i
  {
    if root !in h.mem || |h.mem[root]| != 512 then BadAccess
    else if i == 512 then Done(h)
    else match UnmapEntry(h, root, i)
      case Done(h1) => UnmapFrom(h1, root, i + 1)
      case OutOfMemory => OutOfMemory
      case BadAccess => BadAccess
      case Panic => Panic
  }

  function Unmap(h: Phys, root: nat): Outcome<Phys> { UnmapFrom(h, root, 0) }

  // ---------------------------------------------------------------- one table goes

  /** Tables of `tree` that are not in `tree'` have been released; everything else is as before. */
  ghost predicate Shrinks(h: Phys, tree: Tree, h': Phys, tree': Tree) {
    && h'.base == h.base && h'.end == h.end && |h'.desc| == |h.desc| && h'.mem.Keys == h.mem.Keys
    && (forall q :: q in tree' ==> q in tree && tree'[q] == tree[q])
    && (forall i :: 0 <= i < |h.desc| ==>
          h'.desc[i] == if h.base + i in tree && h.base + i !in tree' then 0 else h.desc[i])
    && (forall q :: q in h.mem && q !in tree ==> h'.mem[q] == h.mem[q])
  }

  lemma ShrinksTransitive(h0: Phys, t0: Tree, h1: Phys, t1: Tree, h2: Phys, t2: Tree)
    requires Shrinks(h0, t0, h1, t1) && Shrinks(h1, t1, h2, t2)
    ensures Shrinks(h0, t0, h2, t2)
  {
  }

  /** Tables of the tree whose release the allocator accepts. */
  ghost predicate Releasable(h: Phys, tree: Tree) {
    forall q :: q in tree ==> q < h.end
  }

  lemma ReleaseOwned(h: Phys, c: nat)
    requires PhysOk(h) && OwnedPage(h, c) && c < h.end
    ensures Release(h, c) == Done(h.(desc := h.desc[c - h.base := 0]))
    ensures WellFormed(h.desc[c - h.base := 0])
  {
    var i := c - h.base;
    assert IsLast(h.desc[i]) && IsTaken(h.desc[i]) by { assert h.desc[i] == 3; }
    var u := h.desc[i := 0];
    forall k: nat | k < |u| ensures Cell(u, k) {
      assert Cell(h.desc, k);
    }
  }

  /** `h'` is `h` with the table `c` released and its link, entry `i` of `p`, cleared. */
  ghost predicate UnlinkRel(h: Phys, h': Phys, c: nat, p: nat, i: nat) {
    && p in h.mem && |h.mem[p]| == 512 && i < 512 && h.base <= c < h.base + |h.desc|
    && PhysOk(h') && h'.base == h.base && h'.end == h.end && |h'.desc| == |h.desc| && h'.mem.Keys == h.mem.Keys
    && h'.desc[c - h.base] == 0
    && (forall m :: 0 <= m < |h.desc| && m != c - h.base ==> h'.desc[m] == h.desc[m])
    && |h'.mem[p]| == 512 && h'.mem[p][i] == 0
    && (forall m :: 0 <= m < 512 && m != i ==> h'.mem[p][m] == h.mem[p][m])
    && (forall q :: q in h.mem && q != p ==> h'.mem[q] == h.mem[q])
  }

  lemma UnlinkShape(h: Phys, h': Phys, root: nat, tree: Tree, c: nat)
    requires Shaped(h, root, tree) && Linked(h, root, tree) && c in tree && c != root
    requires UnlinkRel(h, h', c, tree[c].parent, tree[c].index)
    ensures Shaped(h', root, tree - {c})
  {
    hide GoodEntry, Linked;
    var tree' := tree - {c};
    forall q | q in tree' ensures tree'[q].level <= 2 && OwnedPage(h', q) { assert OwnedPage(h, q); }
    forall q, m | q in tree' && 0 <= m < 512 ensures GoodEntry(h', tree', q, m) {
      UnlinkEntry(h, h', root, tree, c, q, m);
    }
  }

  lemma UnlinkEntry(h: Phys, h': Phys, root: nat, tree: Tree, c: nat, q: nat, m: nat)
    requires Shaped(h, root, tree) && Linked(h, root, tree) && c in tree && c != root
    requires UnlinkRel(h, h', c, tree[c].parent, tree[c].index)
    requires q in tree && q != c && m < 512
    ensures q in h'.mem && |h'.mem[q]| == 512 && GoodEntry(h', tree - {c}, q, m)
  {
    assert OwnedPage(h, q);
    assert GoodEntry(h, tree, q, m);
    assert !IsBranch(0);
  }

  lemma UnlinkLinked(h: Phys, h': Phys, root: nat, tree: Tree, c: nat)
    requires Shaped(h, root, tree) && Linked(h, root, tree) && c in tree && c != root
    requires UnlinkRel(h, h', c, tree[c].parent, tree[c].index)
    requires forall i :: 0 <= i < 512 ==> !IsBranch(h.mem[c][i])
    requires Shaped(h', root, tree - {c})
    ensures Linked(h', root, tree - {c})
  {
    var tree' := tree - {c};
    forall q | q in tree' && q != root
      ensures tree'[q].level < 2 && tree'[q].index < 512 && tree'[q].parent in tree'
      ensures IsBranch(h'.mem[tree'[q].parent][tree'[q].index]) && PageOf(h'.mem[tree'[q].parent][tree'[q].index]) == q
    {
      assert tree'[q] == tree[q];
      assert OwnedPage(h, tree[q].parent);
    }
  }

  lemma ReleaseUnlinks(h: Phys, root: nat, tree: Tree, c: nat) returns (h': Phys)
    requires Shaped(h, root, tree) && Linked(h, root, tree) && c in tree && c != root && Releasable(h, tree)
    ensures Release(h, c).Done?
    ensures tree[c].parent in h.mem && |h.mem[tree[c].parent]| == 512 && tree[c].index < 512
    ensures h' == Release(h, c).value.(mem := SetEntry(h.mem, tree[c].parent, tree[c].index, 0))
    ensures UnlinkRel(h, h', c, tree[c].parent, tree[c].index)
  {
    var p, i := tree[c].parent, tree[c].index;
    assert OwnedPage(h, c) && OwnedPage(h, p);
    ReleaseOwned(h, c);
    h' := Release(h, c).value.(mem := SetEntry(h.mem, p, i, 0));
  }

  lemma UnlinkShrinks(h: Phys, h': Phys, tree: Tree, c: nat)
    requires c in tree && tree[c].parent in tree && UnlinkRel(h, h', c, tree[c].parent, tree[c].index)
    ensures Shrinks(h, tree, h', tree - {c})
  {
    hide PhysOk;
  }

  /** A table without links of its own can be released and unlinked from its parent. */
  lemma UnlinkStep(h: Phys, root: nat, tree: Tree, c: nat) returns (h': Phys)
    requires Shaped(h, root, tree) && Linked(h, root, tree) && c in tree && c != root && Releasable(h, tree)
    requires forall i :: 0 <= i < 512 ==> !IsBranch(h.mem[c][i])
    ensures Release(h, c).Done?
    ensures tree[c].parent in h.mem && |h.mem[tree[c].parent]| == 512 && tree[c].index < 512
    ensures h' == Release(h, c).value.(mem := SetEntry(h.mem, tree[c].parent, tree[c].index, 0))
    ensures UnlinkRel(h, h', c, tree[c].parent, tree[c].index)
    ensures Shaped(h', root, tree - {c}) && Linked(h', root, tree - {c}) && Shrinks(h, tree, h', tree - {c})
  {
    assert tree[c].parent in tree;
    hide *;
    h' := ReleaseUnlinks(h, root, tree, c);
    UnlinkShape(h, h', root, tree, c);
    UnlinkLinked(h, h', root, tree, c);
    UnlinkShrinks(h, h', tree, c);
  }

  // ---------------------------------------------------------------- the loops

  /** The tree invariants carried through the tear-down. */
  ghost predicate Sound(h: Phys, root: nat, tree: Tree) {
    Shaped(h, root, tree) && Linked(h, root, tree) && Releasable(h, tree)
  }

  ghost predicate NoBranches(h: Phys, t: nat, n: nat) {
    t in h.mem && |h.mem[t]| == 512 && forall m :: 0 <= m < n && m < 512 ==> !IsBranch(h.mem[t][m])
  }

  lemma SoundTable(h: Phys, root: nat, tree: Tree, t: nat)
    requires Sound(h, root, tree) && t in tree
    ensures t in h.mem && |h.mem[t]| == 512
    ensures tree[t].level == 2 ==> t == root
    ensures tree[t].level == 0 ==> NoBranches(h, t, 512)
  {
    assert OwnedPage(h, t);
    if tree[t].level == 0 {
      forall m | 0 <= m < 512 ensures !IsBranch(h.mem[t][m]) {
        assert GoodEntry(h, tree, t, m);
      }
    }
  }

  lemma BranchChild(h: Phys, root: nat, tree: Tree, t: nat, j: nat)
    requires Sound(h, root, tree) && t in tree && j < 512 && t in h.mem && |h.mem[t]| == 512 && IsBranch(h.mem[t][j])
    ensures tree[t].level > 0 && PageOf(h.mem[t][j]) in tree && PageOf(h.mem[t][j]) != root
    ensures tree[PageOf(h.mem[t][j])] == Node(tree[t].level - 1, t, j)
  {
    assert GoodEntry(h, tree, t, j);
  }

  /** `UnlinkStep` in terms of the loop state. */
  lemma RemoveTable(h: Phys, root: nat, tree: Tree, c: nat, p: nat, i: nat) returns (h': Phys)
    requires Sound(h, root, tree) && c in tree && c != root && tree[c].parent == p && tree[c].index == i
    requires NoBranches(h, c, 512)
    ensures p in h.mem && |h.mem[p]| == 512 && i < 512
    ensures Release(h, c).Done? && Release(h, c).value.mem == h.mem
    ensures h' == Release(h, c).value.(mem := SetEntry(h.mem, p, i, 0))
    ensures Sound(h', root, tree - {c}) && Shrinks(h, tree, h', tree - {c})
    ensures h'.mem == SetEntry(h.mem, p, i, 0)
  {
    hide Shaped, Linked;
    h' := UnlinkStep(h, root, tree, c);
    assert Release(h, c).value.mem == h.mem;
    hide UnlinkRel;
  }

  lemma {:induction false} InnerCorrect(h: Phys, root: nat, tree: Tree, t: nat, j: nat) returns (h': Phys, tree': Tree)
    requires Sound(h, root, tree) && t in tree && t != root && tree[t].level == 1 && j <= 512 && NoBranches(h, t, j)
    ensures UnmapInner(h, t, j) == Done(h')
    ensures Sound(h', root, tree') && Shrinks(h, tree, h', tree') && t in tree' && NoBranches(h', t, 512)
    ensures root in h.mem && root in h'.mem && h'.mem[root] == h.mem[root]
    decreases 512 - j
  {
    hide Shaped, Linked, Release, IsBranch, PageOf;
    SoundTable(h, root, tree, t);
    RootInTree(h, root, tree);
    SoundTable(h, root, tree, root);
    if j == 512 {
      h', tree' := h, tree;
    } else {
      var e := h.mem[t][j];
      if !IsBranch(e) {
        h', tree' := InnerCorrect(h, root, tree, t, j + 1);
      } else {
        BranchChild(h, root, tree, t, j);
        var c := PageOf(e);
        SoundTable(h, root, tree, c);
        var h1 := RemoveTable(h, root, tree, c, t, j);
        ZeroNoBranch();
        assert NoBranches(h1, t, j + 1);
        h', tree' := InnerCorrect(h1, root, tree - {c}, t, j + 1);
        ShrinksTransitive(h, tree, h1, tree - {c}, h', tree');
      }
    }
  }

  lemma ZeroNoBranch()
    ensures !IsBranch(0)
  {
  }

  lemma RootInTree(h: Phys, root: nat, tree: Tree)
    requires Sound(h, root, tree)
    ensures root in tree && tree[root].level == 2
  {
  }

  /** Root entry `i` no longer links a table; the other root entries are as before. */
  lemma EntryCorrect(h: Phys, root: nat, tree: Tree, i: nat) returns (h': Phys, tree': Tree)
    requires Sound(h, root, tree) && i < 512
    ensures root in h.mem && |h.mem[root]| == 512
    ensures UnmapEntry(h, root, i) == Done(h')
    ensures Sound(h', root, tree') && Shrinks(h, tree, h', tree')
    ensures root in h'.mem && |h'.mem[root]| == 512
    ensures forall m :: 0 <= m < 512 ==>
      h'.mem[root][m] == if m == i && IsBranch(h.mem[root][i]) then 0 else h.mem[root][m]
  {
    hide Shaped, Linked, Release, IsBranch, PageOf, UnmapInner;
    RootInTree(h, root, tree);
    SoundTable(h, root, tree, root);
    var e := h.mem[root][i];
    if !IsBranch(e) {
      h', tree' := h, tree;
    } else {
      BranchChild(h, root, tree, root, i);
      var t := PageOf(e);
      SoundTable(h, root, tree, t);
      var h1, tree1 := InnerCorrect(h, root, tree, t, 0);
      var h2 := RemoveTable(h1, root, tree1, t, root, i);
      ShrinksTransitive(h, tree, h1, tree1, h2, tree1 - {t});
      h', tree' := h2, tree1 - {t};
    }
  }

  lemma {:induction false} FromCorrect(h: Phys, root: nat, tree: Tree, i: nat) returns (h': Phys, tree': Tree)
    requires Sound(h, root, tree) && i <= 512
    ensures root in h.mem && |h.mem[root]| == 512
    ensures UnmapFrom(h, root, i) == Done(h')
    ensures Sound(h', root, tree') && Shrinks(h, tree, h', tree')
    ensures root in h'.mem && |h'.mem[root]| == 512
    ensures forall m :: 0 <= m < 512 ==>
      h'.mem[root][m] == if m >= i && IsBranch(h.mem[root][m]) then 0 else h.mem[root][m]
    decreases 512 - i
  {
    hide Shaped, Linked, IsBranch, PageOf, UnmapEntry;
    RootInTree(h, root, tree);
    SoundTable(h, root, tree, root);
    if i == 512 {
      h', tree' := h, tree;
    } else {
      var h1, tree1 := EntryCorrect(h, root, tree, i);
      h', tree' := FromCorrect(h1, root, tree1, i + 1);
      ShrinksTransitive(h, tree, h1, tree1, h', tree');
    }
  }

  /** A table other than the root hangs one level below a table whose entry links it. */
  lemma ParentLevel(h: Phys, root: nat, tree: Tree, q: nat)
    requires Sound(h, root, tree) && q in tree
    ensures q != root ==>
      && tree[q].level < 2 && tree[q].parent in tree && tree[tree[q].parent].level == tree[q].level + 1
      && (tree[q].parent == root ==> !NoBranches(h, root, 512))
  {
    if q != root {
      assert OwnedPage(h, tree[q].parent) && GoodEntry(h, tree, tree[q].parent, tree[q].index);
    }
  }

  /** With no link left in the root, the root is the only table. */
  lemma OnlyRoot(h: Phys, root: nat, tree: Tree)
    requires Sound(h, root, tree) && NoBranches(h, root, 512)
    ensures tree.Keys == {root}
  {
    RootInTree(h, root, tree);
    hide *;
    forall q | q in tree ensures q == root {
      ParentLevel(h, root, tree, q);
      if q != root {
        SoundTable(h, root, tree, tree[q].parent);
        ParentLevel(h, root, tree, tree[q].parent);
      }
    }
  }

  /** `unmap` succeeds on every tree of releasable tables. It releases exactly the tables below the
      root, leaves every other page and every descriptor alone, and afterwards an address is mapped
      only where the root itself holds a leaf. */
  lemma UnmapReleasesAll(h: Phys, root: nat, tree: Tree) returns (h': Phys)
    requires Shaped(h, root, tree) && Linked(h, root, tree) && Releasable(h, tree)
    ensures Unmap(h, root) == Done(h')
    ensures |h'.desc| == |h.desc|
    ensures forall i :: 0 <= i < |h.desc| ==>
      h'.desc[i] == if h.base + i in tree && h.base + i != root then 0 else h.desc[i]
    ensures h'.mem.Keys == h.mem.Keys && forall q :: q in h.mem && q !in tree ==> h'.mem[q] == h.mem[q]
    ensures root in h.mem && |h.mem[root]| == 512
    ensures OnlyRootLeaves(h.mem, h'.mem, root)
  {
    assert Sound(h, root, tree) && Unmap(h, root) == UnmapFrom(h, root, 0);
    hide *;
    var tree';
    h', tree' := FromCorrect(h, root, tree, 0);
    Emptied(h.mem[root], h', root);
    OnlyRoot(h', root, tree');
    ShrunkAll(h, tree, h', tree', root);
    RootLeavesLeft(h.mem, h'.mem, root);
  }

  lemma Emptied(before: seq<nat>, h: Phys, root: nat)
    requires |before| == 512 && root in h.mem && |h.mem[root]| == 512
    requires forall m :: 0 <= m < 512 ==> h.mem[root][m] == if m >= 0 && IsBranch(before[m]) then 0 else before[m]
    ensures NoBranches(h, root, 512)
  {
    ZeroNoBranch();
    hide IsBranch;
  }

  lemma ShrunkAll(h: Phys, tree: Tree, h': Phys, tree': Tree, root: nat)
    requires Shrinks(h, tree, h', tree') && tree'.Keys == {root}
    ensures |h'.desc| == |h.desc|
    ensures forall i :: 0 <= i < |h.desc| ==>
      h'.desc[i] == if h.base + i in tree && h.base + i != root then 0 else h.desc[i]
    ensures h'.mem.Keys == h.mem.Keys && forall q :: q in h.mem && q !in tree ==> h'.mem[q] == h.mem[q]
  {
    assert forall q :: q in tree' <==> q == root;
  }

  /** After the tear-down an address finds the leaf its root entry held before, or nothing. */
  ghost predicate OnlyRootLeaves(mem: map<nat, seq<nat>>, mem': map<nat, seq<nat>>, root: nat)
    requires root in mem && |mem[root]| == 512
  {
    forall va: nat :: Lookup(mem', root, 2, va) == RootLeaf(mem[root][Vpn(va, 2)])
  }

  function RootLeaf(e: nat): Found { if IsValid(e) && IsLeaf(e) then Leaf(e, 2) else Hole }

  lemma RootLeavesLeft(mem: map<nat, seq<nat>>, mem': map<nat, seq<nat>>, root: nat)
    requires root in mem && |mem[root]| == 512 && root in mem' && |mem'[root]| == 512
    requires forall m :: 0 <= m < 512 ==> mem'[root][m] == if IsBranch(mem[root][m]) then 0 else mem[root][m]
    ensures OnlyRootLeaves(mem, mem', root)
  {
    forall va: nat ensures Lookup(mem', root, 2, va) == RootLeaf(mem[root][Vpn(va, 2)]) {
      hide Vpn;
      var i := Vpn(va, 2);
      assert mem'[root][i] == if IsBranch(mem[root][i]) then 0 else mem[root][i];
    }
  }

  // ---------------------------------------------------------------- whole histories

  datatype MapCall = MapCall(va: nat, pa: nat, bits: nat, level: nat)

  function MapAll(h: Phys, root: nat, calls: seq<MapCall>): Outcome<Phys>
    decreases calls
  {
    if calls == [] then Done(h)
    else match Map(h, root, calls[0].va, calls[0].pa, calls[0].bits, calls[0].level)
      case Done(h1) => MapAll(h1, root, calls[1..])
      case OutOfMemory => OutOfMemory
      case BadAccess => BadAccess
      case Panic => Panic
  }

  /** Each call has leaf flags and, when it is made, meets no leaf above its own level. */
  ghost predicate NeverThroughLeaf(h: Phys, root: nat, calls: seq<MapCall>)
    decreases calls
  {
    calls == [] || (
      && LeafFlags(calls[0].bits) && PathClear(h.mem, root, 2, calls[0].va, calls[0].level)
      && var r := Map(h, root, calls[0].va, calls[0].pa, calls[0].bits, calls[0].level);
         r.Done? ==> NeverThroughLeaf(r.value, root, calls[1..]))
  }

  /** No call replaces the link to a table by a leaf. */
  ghost predicate NeverOverwrites(h: Phys, root: nat, calls: seq<MapCall>)
    decreases calls
  {
    calls == [] || (
      && NoOverwrite(h.mem, root, 2, calls[0].va, calls[0].level)
      && var r := Map(h, root, calls[0].va, calls[0].pa, calls[0].bits, calls[0].level);
         r.Done? ==> NeverOverwrites(r.value, root, calls[1..]))
  }

  predicate Covers(c: MapCall, va: nat) { SameRegion(c.va, va, Clamp(c.level)) }

  /** The reference: the last call that covers an address decides it. */
  function LastWriter(calls: seq<MapCall>, va: nat): (r: Option<MapCall>)
    ensures r.Some? ==> r.value in calls && Covers(r.value, va)
    ensures r.None? ==> forall i :: 0 <= i < |calls| ==> !Covers(calls[i], va)
  {
    if calls == [] then None
    else if Covers(calls[|calls|-1], va) then Some(calls[|calls|-1])
    else LastWriter(calls[..|calls|-1], va)
  }

  function Decided(mem: map<nat, seq<nat>>, root: nat, calls: seq<MapCall>, va: nat): Found {
    match LastWriter(calls, va)
    case Some(c) => Leaf(LeafPte(c.pa, c.bits), Clamp(c.level))
    case None => Lookup(mem, root, 2, va)
  }

  lemma {:induction false} LastWriterCons(calls: seq<MapCall>, va: nat)
    requires calls != []
    ensures LastWriter(calls, va) ==
      if LastWriter(calls[1..], va).Some? then LastWriter(calls[1..], va)
      else if Covers(calls[0], va) then Some(calls[0]) else None
    decreases calls
  {
    var n := |calls|;
    if n > 1 && !Covers(calls[n-1], va) {
      LastWriterCons(calls[..n-1], va);
      assert calls[..n-1][1..] == calls[1..][..n-2];
    }
  }

  /** A sequence of `map` calls is the last-writer-wins address map, and keeps the tree. */
  lemma {:induction false} MapAllCorrect(h: Phys, root: nat, tree: Tree, calls: seq<MapCall>)
    returns (h': Phys, tree': Tree)
    requires Shaped(h, root, tree) && NeverThroughLeaf(h, root, calls) && MapAll(h, root, calls).Done?
    ensures MapAll(h, root, calls) == Done(h')
    ensures Shaped(h', root, tree') && Grows(h, tree, h', tree')
    ensures forall va: nat :: Lookup(h'.mem, root, 2, va) == Decided(h.mem, root, calls, va)
    ensures Linked(h, root, tree) && NeverOverwrites(h, root, calls) ==> Linked(h', root, tree')
    decreases calls
  {
    hide Shaped, Linked, Map, NoOverwrite, PathClear, Vpn, Unit, LeafPte, LeafFlags, Lookup;
    if calls == [] {
      h', tree' := h, tree;
      GrowsReflexive(h, tree);
    } else {
      var c := calls[0];
      var h1, tree1 := MapTranslates(h, root, tree, c.va, c.pa, c.bits, c.level);
      h', tree' := MapAllCorrect(h1, root, tree1, calls[1..]);
      GrowsTransitive(h, tree, h1, tree1, h', tree');
      forall va: nat ensures Lookup(h'.mem, root, 2, va) == Decided(h.mem, root, calls, va) {
        LastWriterCons(calls, va);
        assert Lookup(h'.mem, root, 2, va) == Decided(h1.mem, root, calls[1..], va);
      }
    }
  }

  /** After any history of calls the walk stays among the tables: it answers for every address. */
  lemma HistoryNeverFaults(h: Phys, root: nat, tree: Tree, calls: seq<MapCall>, va: nat) returns (h': Phys)
    requires Shaped(h, root, tree) && NeverThroughLeaf(h, root, calls) && MapAll(h, root, calls).Done?
    ensures MapAll(h, root, calls) == Done(h') && V2p(h'.mem, root, va) != Fault
  {
    var tree';
    h', tree' := MapAllCorrect(h, root, tree, calls);
    assert tree'[root].level == 2;
    hide Shaped, MapAll, NeverThroughLeaf;
    NoWildWalk(h', root, tree', root, 2, va);
  }

  lemma GrowsReflexive(h: Phys, tree: Tree)
    ensures Grows(h, tree, h, tree)
  {
  }

  lemma FreshRoot(h: Phys, root: nat) returns (tree: Tree)
    requires PhysOk(h) && OwnedPage(h, root) && h.mem[root] == ZeroPage()
    ensures tree == map[root := Node(2, 0, 0)]
    ensures Shaped(h, root, tree) && Linked(h, root, tree)
  {
    tree := map[root := Node(2, 0, 0)];
    ZeroNoBranch();
    forall p, i | p in tree && 0 <= i < 512 ensures GoodEntry(h, tree, p, i) {
    }
  }

  lemma RestoredTable(h: Phys, tree: Tree, h1: Phys, tree1: Tree, h2: Phys, root: nat)
    requires tree.Keys == {root} && Grows(h, tree, h1, tree1) && |h2.desc| == |h1.desc|
    requires forall i :: 0 <= i < |h1.desc| ==>
      h2.desc[i] == if h1.base + i in tree1 && h1.base + i != root then 0 else h1.desc[i]
    ensures h2.desc == h.desc
  {
    assert root in tree1;
    forall i | 0 <= i < |h.desc| ensures h2.desc[i] == h.desc[i] {
      var q := h.base + i;
      assert q in tree <==> q == root;
    }
  }

  /** An address keeps its translation through the tear-down only under a level-2 leaf. */
  lemma LeftAfterUnmap(mem0: map<nat, seq<nat>>, mem1: map<nat, seq<nat>>, mem2: map<nat, seq<nat>>, root: nat,
                       calls: seq<MapCall>, va: nat)
    requires root in mem1 && |mem1[root]| == 512 && OnlyRootLeaves(mem1, mem2, root)
    requires root in mem0 && mem0[root] == ZeroPage()
    requires Lookup(mem1, root, 2, va) == Decided(mem0, root, calls, va)
    ensures V2p(mem2, root, va) ==
      if LastWriter(calls, va).Some? && LastWriter(calls, va).value.level >= 2 then V2p(mem1, root, va) else Unmapped
  {
    hide Vpn, Unit, LeafPte, LastWriter;
    var e := mem1[root][Vpn(va, 2)];
    assert Lookup(mem2, root, 2, va) == RootLeaf(e);
    assert Lookup(mem0, root, 2, va) == Hole;
  }

  ghost predicate GiantLeavesLeft(mem1: map<nat, seq<nat>>, mem2: map<nat, seq<nat>>, root: nat, calls: seq<MapCall>) {
    forall va: nat :: V2p(mem2, root, va) ==
      (if LastWriter(calls, va).Some? && LastWriter(calls, va).value.level >= 2 then V2p(mem1, root, va) else Unmapped)
  }

  lemma AllLeftAfterUnmap(mem0: map<nat, seq<nat>>, mem1: map<nat, seq<nat>>, mem2: map<nat, seq<nat>>, root: nat,
                          calls: seq<MapCall>)
    requires root in mem1 && |mem1[root]| == 512 && OnlyRootLeaves(mem1, mem2, root)
    requires root in mem0 && mem0[root] == ZeroPage()
    requires forall va: nat :: Lookup(mem1, root, 2, va) == Decided(mem0, root, calls, va)
    ensures GiantLeavesLeft(mem1, mem2, root, calls)
  {
    hide V2p, LastWriter, Lookup, Decided, OnlyRootLeaves;
    forall va: nat ensures V2p(mem2, root, va) ==
      (if LastWriter(calls, va).Some? && LastWriter(calls, va).value.level >= 2 then V2p(mem1, root, va) else Unmapped)
    {
      LeftAfterUnmap(mem0, mem1, mem2, root, calls, va);
    }
  }

  lemma RamIsReleasable(h: Phys, tree: Tree, h1: Phys, root: nat, tree1: Tree)
    requires Grows(h, tree, h1, tree1) && Shaped(h1, root, tree1)
    requires forall q :: q in h.mem && h.base <= q ==> q < h.end
    ensures Releasable(h1, tree1)
  {
    forall q | q in tree1 ensures q < h1.end { assert OwnedPage(h1, q); }
  }

  /** Build and tear-down conserve pages: any calls on a zeroed root that pass no leaf and overwrite
      no link, followed by `unmap`, give back the descriptor table byte for byte, and what is still
      mapped afterwards are exactly the addresses whose last writer was a level-2 leaf. */
  lemma BuildAndTearDown(h: Phys, root: nat, calls: seq<MapCall>) returns (h1: Phys, h2: Phys)
    requires PhysOk(h) && OwnedPage(h, root) && h.mem[root] == ZeroPage()
    requires NeverThroughLeaf(h, root, calls) && NeverOverwrites(h, root, calls) && MapAll(h, root, calls).Done?
    requires forall q :: q in h.mem && h.base <= q ==> q < h.end
    ensures MapAll(h, root, calls) == Done(h1) && Unmap(h1, root) == Done(h2)
    ensures h2.desc == h.desc
    ensures GiantLeavesLeft(h1.mem, h2.mem, root, calls)
  {
    var tree := FreshRoot(h, root);
    hide *;
    var tree1;
    h1, tree1 := MapAllCorrect(h, root, tree, calls);
    RamIsReleasable(h, tree, h1, root, tree1);
    h2 := UnmapReleasesAll(h1, root, tree1);
    RestoredTable(h, tree, h1, tree1, h2, root);
    AllLeftAfterUnmap(h.mem, h1.mem, h2.mem, root, calls);
  }
}
