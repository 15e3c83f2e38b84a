/** First-fit page-frame allocator: a one-byte descriptor per page, with a TAKEN bit on every
    page of a run and a LAST bit on its final page. The descriptor table is a plain byte
    sequence in the specification and an array in the allocator object. */
module PageFrame {

  datatype Option<+T> = None | Some(value: T)

  const PAGE_SIZE: nat := 4096
  const TAKEN: bv8 := 1
  const LAST: bv8 := 2

  predicate IsTaken(d: bv8) { d & TAKEN != 0 }
  predicate IsLast(d: bv8) { d & LAST != 0 }

  // ---------------------------------------------------------------- well-formed tables and their runs

  /** The only bytes are free (0), inner (TAKEN) and final (TAKEN|LAST), and an inner page is
      always followed by another taken page. */
  ghost predicate Cell(t: seq<bv8>, i: nat)
    requires i < |t|
  {
    && (t[i] == 0 || t[i] == 1 || t[i] == 3)
    && (t[i] == 1 ==> i + 1 < |t| && t[i+1] != 0)
  }

  ghost predicate WellFormed(t: seq<bv8>) {
    forall i: nat :: i < |t| ==> Cell(t, i)
  }

  /** Page `i` begins a run: it is taken and the page before it does not continue into it. */
  predicate IsStart(t: seq<bv8>, i: nat) {
    i < |t| && t[i] != 0 && (i == 0 || t[i-1] != 1)
  }

  /** Index of the page that ends the run through page `i`. */
  ghost function RunEnd(t: seq<bv8>, i: nat): (e: nat)
    requires WellFormed(t) && i < |t| && t[i] != 0
    ensures i <= e < |t| && t[e] == 3 && forall j :: i <= j < e ==> t[j] == 1
    decreases |t| - i
  {
    assert Cell(t, i);
    if t[i] == 3 then i else RunEnd(t, i + 1)
  }

  /** The live runs a table encodes: start index to length. */
  ghost function Runs(t: seq<bv8>): map<nat, nat>
    requires WellFormed(t)
  {
    map s: nat | s < |t| && IsStart(t, s) :: RunEnd(t, s) - s + 1
  }

  ghost predicate InRun(live: map<nat, nat>, s: nat, i: int) {
    s in live && s <= i < s + live[s]
  }

  lemma RunEndUnique(t: seq<bv8>, i: nat, e: nat)
    requires WellFormed(t) && i <= e < |t| && t[e] == 3
    requires forall j :: i <= j < e ==> t[j] == 1
    ensures RunEnd(t, i) == e
  {
    var r := RunEnd(t, i);
    assert t[r] == t[e] == 3;
  }

  /** Every taken page lies in a run; its start is found by walking back over inner pages. */
  lemma {:induction false} TakenInRun(t: seq<bv8>, i: nat) returns (s: nat)
    requires WellFormed(t) && i < |t| && t[i] != 0
    ensures InRun(Runs(t), s, i) && RunEnd(t, s) == RunEnd(t, i)
  {
    if IsStart(t, i) {
      s := i;
    } else {
      s := TakenInRun(t, i - 1);
    }
  }

  /** The decoded runs are disjoint and cover exactly the taken pages. */
  lemma RunsPartition(t: seq<bv8>)
    requires WellFormed(t)
    ensures forall s :: s in Runs(t) ==> Runs(t)[s] > 0 && s + Runs(t)[s] <= |t|
    ensures forall s1, s2 :: s1 in Runs(t) && s2 in Runs(t) && s1 < s2 ==> s1 + Runs(t)[s1] <= s2
    ensures forall i: nat :: i < |t| ==> (IsTaken(t[i]) <==> exists s: nat :: InRun(Runs(t), s, i))
  {
    forall s1, s2 | s1 in Runs(t) && s2 in Runs(t) && s1 < s2
      ensures s1 + Runs(t)[s1] <= s2
    {
      var e := RunEnd(t, s1);
      assert t[s2-1] != 1;
    }
    forall i: nat | i < |t|
      ensures IsTaken(t[i]) <==> exists s: nat :: InRun(Runs(t), s, i)
    {
      TakenIffInRun(t, i);
    }
  }

  // ---------------------------------------------------------------- allocation

  predicate FreeWindow(t: seq<bv8>, s: nat, p: nat) {
    s + p <= |t| && forall i :: s <= i < s + p ==> !IsTaken(t[i])
  }

  /** Lowest window of `p` free pages that starts at or after `s`. */
  function FirstFit(t: seq<bv8>, p: nat, s: nat): (r: Option<nat>)
    ensures r.Some? ==> s <= r.value && FreeWindow(t, r.value, p)
    ensures r.Some? ==> forall k :: s <= k < r.value ==> !FreeWindow(t, k, p)
    ensures r.None? ==> forall k :: s <= k ==> !FreeWindow(t, k, p)
    decreases |t| - s
  {
    if s + p > |t| then None
    else if FreeWindow(t, s, p) then Some(s)
    else if s == |t| then None
    else FirstFit(t, p, s + 1)
  }

  function Marked(d: bv8, last: bool): bv8 {
    if last then (d | TAKEN) | LAST else d | TAKEN
  }

  function MarkRun(t: seq<bv8>, s: nat, p: nat): (r: seq<bv8>)
    requires s + p <= |t|
  {
    seq(|t|, i requires 0 <= i < |t| => if s <= i < s + p then Marked(t[i], i == s + p - 1) else t[i])
  }

  /** A run whose pages and left border are the same in another table is a run there too. */
  lemma SameRun(t: seq<bv8>, u: seq<bv8>, k: nat)
    requires WellFormed(t) && WellFormed(u) && |u| == |t| && IsStart(t, k)
    requires forall j :: k <= j <= RunEnd(t, k) ==> u[j] == t[j]
    requires k == 0 || u[k-1] != 1
    ensures IsStart(u, k) && RunEnd(u, k) == RunEnd(t, k)
  {
    RunEndUnique(u, k, RunEnd(t, k));
  }

  /** Two tables that agree on the starts other than `s`, and on where those runs end, decode to
      the same runs apart from `s`. */
  ghost predicate SameElsewhere(t: seq<bv8>, u: seq<bv8>, s: nat)
    requires WellFormed(t) && WellFormed(u)
  {
    && |u| == |t|
    && forall k: nat {:trigger IsStart(t, k)} {:trigger IsStart(u, k)} :: k < |t| && k != s ==>
         (IsStart(u, k) <==> IsStart(t, k)) && (IsStart(t, k) ==> RunEnd(u, k) == RunEnd(t, k))
  }

  lemma RunIs(t: seq<bv8>, k: nat)
    requires WellFormed(t)
    ensures k in Runs(t) <==> IsStart(t, k)
    ensures IsStart(t, k) ==> Runs(t)[k] == RunEnd(t, k) - k + 1
  {
  }

  lemma RunElsewhere(t: seq<bv8>, u: seq<bv8>, s: nat, k: nat)
    requires WellFormed(t) && WellFormed(u) && SameElsewhere(t, u, s) && k != s
    ensures (k in Runs(t) <==> k in Runs(u)) && (k in Runs(t) ==> Runs(t)[k] == Runs(u)[k])
  {
    RunIs(t, k);
    RunIs(u, k);
    hide WellFormed, Runs;
  }

  lemma RunsElsewhere(t: seq<bv8>, u: seq<bv8>, s: nat)
    requires WellFormed(t) && WellFormed(u) && SameElsewhere(t, u, s) && s < |t|
    ensures IsStart(u, s) ==> Runs(u) == Runs(t)[s := RunEnd(u, s) - s + 1]
    ensures !IsStart(u, s) ==> Runs(u) == Runs(t) - {s}
  {
    hide WellFormed, IsStart, Runs, SameElsewhere;
    RunIs(u, s);
    forall k: nat | k != s ensures (k in Runs(t) <==> k in Runs(u)) && (k in Runs(t) ==> Runs(t)[k] == Runs(u)[k]) {
      RunElsewhere(t, u, s, k);
    }
    MapsAgreeExcept(Runs(t), Runs(u), s);
  }

  lemma MapsAgreeExcept(m: map<nat, nat>, n: map<nat, nat>, s: nat)
    requires forall k :: k != s ==> (k in m <==> k in n)
    requires forall k :: k != s && k in m ==> m[k] == n[k]
    ensures if s in n then n == m[s := n[s]] else n == m - {s}
  {
  }

  lemma MarkRunWellFormed(t: seq<bv8>, s: nat, p: nat)
    requires WellFormed(t) && p > 0 && FreeWindow(t, s, p)
    ensures WellFormed(MarkRun(t, s, p))
  {
    var u := MarkRun(t, s, p);
    FreeWindowZero(t, s, p);
    MarkRunBytes(t, s, p);
    forall i: nat | i < |u| ensures Cell(u, i) { assert Cell(t, i); }
  }

  lemma MarkRunElsewhere(t: seq<bv8>, s: nat, p: nat, k: nat)
    requires WellFormed(t) && p > 0 && FreeWindow(t, s, p) && k < |t| && k != s
    requires WellFormed(MarkRun(t, s, p))
    ensures IsStart(MarkRun(t, s, p), k) <==> IsStart(t, k)
    ensures IsStart(t, k) ==> RunEnd(MarkRun(t, s, p), k) == RunEnd(t, k)
  {
    FreeWindowZero(t, s, p);
    MarkRunBytes(t, s, p);
    assert k > 0 ==> Cell(t, k - 1);
    if IsStart(t, k) {
      var e := RunEnd(t, k);
      assert t[e] == 3;
      SameRun(t, MarkRun(t, s, p), k);
    }
  }

  /** Marking a free window adds exactly that run to the decoded runs. */
  lemma MarkRunAddsRun(t: seq<bv8>, s: nat, p: nat)
    requires WellFormed(t) && p > 0 && FreeWindow(t, s, p)
    ensures WellFormed(MarkRun(t, s, p))
    ensures Runs(MarkRun(t, s, p)) == Runs(t)[s := p]
  {
    var u := MarkRun(t, s, p);
    MarkRunWellFormed(t, s, p);
    assert IsStart(u, s) && RunEnd(u, s) == s + p - 1 by {
      FreeWindowZero(t, s, p);
      MarkRunBytes(t, s, p);
      assert s > 0 ==> Cell(t, s - 1);
      RunEndUnique(u, s, s + p - 1);
    }
    assert SameElsewhere(t, u, s) by {
      forall k: nat | k < |t| && k != s
        ensures (IsStart(u, k) <==> IsStart(t, k)) && (IsStart(t, k) ==> RunEnd(u, k) == RunEnd(t, k))
      {
        MarkRunElsewhere(t, s, p, k);
      }
    }
    RunsElsewhere(t, u, s);
  }

  lemma MarkRunBytes(t: seq<bv8>, s: nat, p: nat)
    requires WellFormed(t) && p > 0 && FreeWindow(t, s, p)
    ensures forall i :: s <= i < s + p ==> MarkRun(t, s, p)[i] == if i == s + p - 1 then 3 else 1
    ensures forall i :: 0 <= i < |t| && !(s <= i < s + p) ==> MarkRun(t, s, p)[i] == t[i]
  {
    FreeWindowZero(t, s, p);
  }

  lemma FreeWindowZero(t: seq<bv8>, s: nat, p: nat)
    requires WellFormed(t) && FreeWindow(t, s, p)
    ensures forall i :: s <= i < s + p ==> t[i] == 0
  {
    forall i | s <= i < s + p ensures t[i] == 0 {
      assert Cell(t, i) && !IsTaken(t[i]);
    }
  }

  // ---------------------------------------------------------------- release

  /** Free from page `i` to the first LAST page; `None` is the panic of the assertion or of an
      out-of-range index. */
  function FreeFrom(t: seq<bv8>, i: nat): (r: Option<seq<bv8>>)
    ensures r.Some? ==> |r.value| == |t|
    decreases |t| - i
  {
    if i >= |t| || !IsTaken(t[i]) then None
    else if IsLast(t[i]) then Some(t[i := 0])
    else FreeFrom(t[i := 0], i + 1)
  }

  function ClearRange(t: seq<bv8>, i: nat, e: nat): (r: seq<bv8>)
    requires e <= |t|
  {
    seq(|t|, k requires 0 <= k < |t| => if i <= k < e then 0 else t[k])
  }

  lemma {:induction false} FreeFromClears(t: seq<bv8>, i: nat, e: nat)
    requires i <= e < |t| && t[e] == 3
    requires forall j :: i <= j < e ==> t[j] == 1
    ensures FreeFrom(t, i) == Some(ClearRange(t, i, e + 1))
    decreases e - i
  {
    if i == e {
      assert t[i := 0] == ClearRange(t, i, e + 1);
    } else {
      FreeFromClears(t[i := 0], i + 1, e);
      assert ClearRange(t[i := 0], i + 1, e + 1) == ClearRange(t, i, e + 1);
    }
  }

  ghost function WithoutRun(t: seq<bv8>, s: nat): (r: seq<bv8>)
    requires WellFormed(t) && IsStart(t, s)
  {
    ClearRange(t, s, RunEnd(t, s) + 1)
  }

  lemma ClearRunWellFormed(t: seq<bv8>, s: nat)
    requires WellFormed(t) && IsStart(t, s)
    ensures WellFormed(WithoutRun(t, s))
  {
    var u := WithoutRun(t, s);
    forall i: nat | i < |u| ensures Cell(u, i) { assert Cell(t, i); }
  }

  lemma ClearRunElsewhere(t: seq<bv8>, s: nat, k: nat)
    requires WellFormed(t) && IsStart(t, s) && k < |t| && k != s
    requires WellFormed(WithoutRun(t, s))
    ensures IsStart(WithoutRun(t, s), k) <==> IsStart(t, k)
    ensures IsStart(t, k) ==> RunEnd(WithoutRun(t, s), k) == RunEnd(t, k)
  {
    var e := RunEnd(t, s);
    assert k > 0 ==> Cell(t, k - 1);
    assert s > 0 ==> t[s-1] != 1;
    if IsStart(t, k) {
      assert k > 0 ==> t[k-1] != 1;
      var f := RunEnd(t, k);
      SameRun(t, WithoutRun(t, s), k);
    }
  }

  lemma ClearRunRemoves(t: seq<bv8>, s: nat)
    requires WellFormed(t) && IsStart(t, s)
    ensures WellFormed(WithoutRun(t, s))
    ensures Runs(WithoutRun(t, s)) == Runs(t) - {s}
  {
    var u := WithoutRun(t, s);
    ClearRunWellFormed(t, s);
    forall k: nat | k < |t| && k != s
      ensures (IsStart(u, k) <==> IsStart(t, k)) && (IsStart(t, k) ==> RunEnd(u, k) == RunEnd(t, k))
    {
      ClearRunElsewhere(t, s, k);
    }
    assert SameElsewhere(t, u, s);
    RunsElsewhere(t, u, s);
  }

  /** Releasing a run by its start removes that run and no other. */
  lemma FreeRemovesRun(t: seq<bv8>, s: nat)
    requires WellFormed(t) && IsStart(t, s)
    ensures FreeFrom(t, s) == Some(WithoutRun(t, s))
    ensures WellFormed(WithoutRun(t, s))
    ensures Runs(WithoutRun(t, s)) == Runs(t) - {s}
  {
    FreeFromClears(t, s, RunEnd(t, s));
    assert FreeFrom(t, s) == Some(WithoutRun(t, s));
    ClearRunRemoves(t, s);
  }

  /** On a well-formed table, releasing page `i` panics exactly when the page is free or out of
      range (the double free), and keeps the table well formed exactly when `i` starts a run. */
  lemma FreeExact(t: seq<bv8>, i: nat)
    requires WellFormed(t)
    ensures FreeFrom(t, i).Some? <==> i < |t| && t[i] != 0
    ensures FreeFrom(t, i).Some? ==> (WellFormed(FreeFrom(t, i).value) <==> IsStart(t, i))
  {
    if i < |t| && t[i] != 0 {
      var e := RunEnd(t, i);
      FreeFromClears(t, i, e);
      var u := FreeFrom(t, i).value;
      if IsStart(t, i) {
        FreeRemovesRun(t, i);
      } else {
        assert u[i-1] == 1 && u[i] == 0;
        assert !Cell(u, i - 1);
      }
    }
  }

  /** Releasing what was just allocated restores the table byte for byte. */
  lemma FreeUndoesAllocate(t: seq<bv8>, s: nat, p: nat)
    requires WellFormed(t) && p > 0 && FreeWindow(t, s, p)
    ensures FreeFrom(MarkRun(t, s, p), s) == Some(t)
  {
    FreeWindowZero(t, s, p);
    var u := MarkRun(t, s, p);
    FreeFromClears(u, s, s + p - 1);
    assert ClearRange(u, s, s + p) == t;
  }

  // ---------------------------------------------------------------- refinement of whole histories

  datatype Op = Alloc(pages: nat) | Free(page: nat)

  /** What one call does to the bytes; `None` is a panic. */
  function Step(t: seq<bv8>, op: Op): (r: Option<(seq<bv8>, Option<nat>)>)
  {
    match op
    case Alloc(p) =>
      if p == 0 then None
      else (match FirstFit(t, p, 0)
            case None => Some((t, None))
            case Some(s) => Some((MarkRun(t, s, p), Some(s))))
    case Free(i) =>
      match FreeFrom(t, i)
      case None => None
      case Some(u) => Some((u, None))
  }

  /** The table and the answers after a history of calls. */
  function Exec(t: seq<bv8>, ops: seq<Op>): (r: Option<(seq<bv8>, seq<Option<nat>>)>)
    decreases ops
  {
    if ops == [] then Some((t, []))
    else match Step(t, ops[0])
      case None => None
      case Some((u, a)) =>
        match Exec(u, ops[1..])
        case None => None
        case Some((v, rest)) => Some((v, [a] + rest))
  }

  /** `p` pages from `s` on that no live run touches. */
  ghost predicate Gap(live: map<nat, nat>, n: nat, s: nat, p: nat) {
    s + p <= n && forall k :: k in live ==> k + live[k] <= s || s + p <= k
  }

  /** The allocator on abstract runs: first fit among the gaps, and a release only of a live start. */
  ghost predicate AbstractStep(live: map<nat, nat>, n: nat, op: Op, live': map<nat, nat>, answer: Option<nat>) {
    match op
    case Alloc(p) =>
      && p > 0
      && (match answer
          case Some(s) =>
            Gap(live, n, s, p) && (forall k: nat :: k < s ==> !Gap(live, n, k, p)) && live' == live[s := p]
          case None => (forall k: nat :: !Gap(live, n, k, p)) && live' == live)
    case Free(i) => i in live && live' == live - {i} && answer == None
  }

  ghost predicate AbstractRun(live: map<nat, nat>, n: nat, ops: seq<Op>, live': map<nat, nat>,
                              answers: seq<Option<nat>>)
    decreases ops
  {
    if ops == [] then live' == live && answers == []
    else
      && |answers| == |ops|
      && exists mid ::
           AbstractStep(live, n, ops[0], mid, answers[0]) && AbstractRun(mid, n, ops[1..], live', answers[1..])
  }

  lemma GapIsFreeWindow(t: seq<bv8>, s: nat, p: nat)
    requires WellFormed(t) && p > 0
    ensures Gap(Runs(t), |t|, s, p) <==> FreeWindow(t, s, p)
  {
    var live := Runs(t);
    if Gap(live, |t|, s, p) {
      forall i | s <= i < s + p ensures !IsTaken(t[i]) {
        TakenIffInRun(t, i);
      }
    }
    if FreeWindow(t, s, p) {
      forall k | k in live ensures k + live[k] <= s || s + p <= k {
        var i := if k < s then s else k;
        if k < s + p && s < k + live[k] {
          TakenIffInRun(t, i);
          assert InRun(live, k, i);
          assert false;
        }
      }
    }
  }

  lemma TakenIffInRun(t: seq<bv8>, i: nat)
    requires WellFormed(t) && i < |t|
    ensures IsTaken(t[i]) <==> t[i] != 0
    ensures IsTaken(t[i]) <==> exists s: nat :: InRun(Runs(t), s, i)
  {
    assert Cell(t, i);
    if t[i] != 0 {
      var s := TakenInRun(t, i);
    }
  }

  /** One call refines the abstract allocator; the caller's duty is that a released page starts a live run. */
  lemma StepRefines(t: seq<bv8>, op: Op)
    requires WellFormed(t)
    requires op.Alloc? ==> op.pages > 0
    requires op.Free? ==> op.page in Runs(t)
    ensures Step(t, op).Some?
    ensures var (u, a) := Step(t, op).value;
      |u| == |t| && WellFormed(u) && AbstractStep(Runs(t), |t|, op, Runs(u), a)
  {
    match op
    case Alloc(p) =>
      forall k: nat ensures Gap(Runs(t), |t|, k, p) <==> FreeWindow(t, k, p) {
        GapIsFreeWindow(t, k, p);
      }
      var f := FirstFit(t, p, 0);
      if f.Some? {
        MarkRunAddsRun(t, f.value, p);
      }
    case Free(i) =>
      FreeRemovesRun(t, i);
  }

  /** Every free in the history names a run that is live at that moment. */
  ghost predicate ValidHistory(t: seq<bv8>, ops: seq<Op>)
    requires WellFormed(t)
    decreases ops
  {
    ops == [] || (
      && (ops[0].Alloc? ==> ops[0].pages > 0)
      && (ops[0].Free? ==> ops[0].page in Runs(t))
      && (StepRefines(t, ops[0]); ValidHistory(Step(t, ops[0]).value.0, ops[1..])))
  }

  /** After any valid history the runs decoded from the bits are those of the abstract allocator,
      and the answers along the way are its first-fit answers. */
  lemma {:induction false} HistoryRefines(t: seq<bv8>, ops: seq<Op>)
    requires WellFormed(t) && ValidHistory(t, ops)
    ensures Exec(t, ops).Some?
    ensures var (u, answers) := Exec(t, ops).value;
      |u| == |t| && WellFormed(u) && AbstractRun(Runs(t), |t|, ops, Runs(u), answers)
    decreases ops
  {
    if ops != [] {
      StepRefines(t, ops[0]);
      var (m, a) := Step(t, ops[0]).value;
      HistoryRefines(m, ops[1..]);
      var (u, rest) := Exec(m, ops[1..]).value;
      var answers := [a] + rest;
      assert answers[0] == a && answers[1..] == rest;
      assert Exec(t, ops).value == (u, answers);
      assert AbstractStep(Runs(t), |t|, ops[0], Runs(m), answers[0]);
    }
  }

  // ---------------------------------------------------------------- addresses

  datatype Layout = Layout(heapStart: nat, heapSize: nat)
  {
    /** Descriptors are counted over the whole heap, although the pages start after the table. */
    function Count(): nat { heapSize / PAGE_SIZE }
    function AllocStart(): nat { PageUp(heapStart + Count()) }
    function HeapEnd(): nat { heapStart + heapSize }
    function PageAddr(i: nat): nat { AllocStart() + i * PAGE_SIZE }
    /** The first physical page number the allocator hands out. */
    function Base(): nat { AllocStart() / PAGE_SIZE }
  }

  /** `x` rounded up to a page boundary. */
  function PageUp(x: nat): (r: nat)
    ensures r % PAGE_SIZE == 0 && x <= r < x + PAGE_SIZE
  {
    (x + (PAGE_SIZE - 1)) / PAGE_SIZE * PAGE_SIZE
  }

  /** One descriptor byte for every 4096 bytes of heap, then the pages from the first multiple of 4096 on. */
  lemma PagesFollowTable(l: Layout, i: nat)
    ensures l.Count() == l.heapSize / 4096 && l.PageAddr(i) == l.PageAddr(0) + 4096 * i
    ensures l.PageAddr(0) % 4096 == 0 && l.PageAddr(0) - 4096 < l.heapStart + l.heapSize / 4096 <= l.PageAddr(0)
  {
  }

  /** No page overlaps the descriptor table of `n` bytes, and, with a page-aligned heap end, the run of `p` pages from
      `s` lies inside the heap exactly when its last index is below floor((heapSize - n) / 4096); releasing it is
      accepted exactly when its first address is below the heap end. */
  lemma RunInsideHeap(l: Layout, s: nat, p: nat)
    requires p > 0 && l.HeapEnd() % PAGE_SIZE == 0
    ensures var n := l.heapSize / 4096;
      && l.PageAddr(s) >= l.heapStart + n
      && (l.PageAddr(s + p) <= l.heapStart + l.heapSize <==> s + p - 1 < (l.heapSize - n) / 4096)
      && (l.PageAddr(s) < l.heapStart + l.heapSize <==> s < (l.heapSize - n) / 4096)
  {
    var n := l.Count();
    var e := l.HeapEnd() / PAGE_SIZE;
    var b := l.AllocStart() / PAGE_SIZE;
    assert l.HeapEnd() == e * PAGE_SIZE && l.AllocStart() == b * PAGE_SIZE;
    var room := l.heapSize - n;
    assert b * PAGE_SIZE - PAGE_SIZE < e * PAGE_SIZE - room <= b * PAGE_SIZE;
    assert room / PAGE_SIZE == e - b;
  }

  // ---------------------------------------------------------------- how many pages are left

  /** Free descriptors below index `n`. */
  ghost function FreeBelow(t: seq<bv8>, n: nat): nat
    requires n <= |t|
  {
    if n == 0 then 0 else FreeBelow(t, n - 1) + (if IsTaken(t[n-1]) then 0 else 1)
  }

  lemma {:induction false} FreeBelowSome(t: seq<bv8>, n: nat)
    requires n <= |t| && FreeBelow(t, n) > 0
    ensures FirstFit(t, 1, 0).Some? && FirstFit(t, 1, 0).value < n
  {
    if !IsTaken(t[n-1]) {
      assert FreeWindow(t, n - 1, 1);
    } else {
      FreeBelowSome(t, n - 1);
    }
  }

  lemma {:induction false} FreeBelowMark(t: seq<bv8>, s: nat, n: nat)
    requires n <= |t| && FreeWindow(t, s, 1)
    ensures FreeBelow(MarkRun(t, s, 1), n) == FreeBelow(t, n) - (if s < n then 1 else 0)
  {
    if n > 0 {
      FreeBelowMark(t, s, n - 1);
      assert IsTaken(Marked(t[s], true)) by { MarkedIsTaken(t[s]); }
    }
  }

  lemma MarkedIsTaken(d: bv8)
    ensures IsTaken(Marked(d, true))
  {
  }

  // ---------------------------------------------------------------- the allocator object

  /** A page of zero words. */
  function ZeroPage(): (z: seq<nat>)
    ensures |z| == 512 && forall i :: 0 <= i < 512 ==> z[i] == 0
  {
    seq(512, _ => 0)
  }

  /** The allocator: its descriptor table, changed in place. */
  class PageFrames {
    const layout: Layout
    const table: array<bv8>

    ghost predicate Valid()
      reads table
    {
      table.Length == layout.Count() && WellFormed(table[..])
    }

    constructor (layout: Layout)
      ensures this.layout == layout && fresh(table)
      ensures Valid() && Runs(table[..]) == map[] && table.Length == layout.heapSize / 4096
    {
      this.layout := layout;
      this.table := new bv8[layout.Count()];
      new;
      for i := 0 to table.Length
        invariant forall k :: 0 <= k < i ==> table[k] == 0
      {
        table[i] := 0;
      }
      assert forall i: nat :: i < |table[..]| ==> Cell(table[..], i);
      assert Runs(table[..]).Keys == {};
    }

    /** First fit: the lowest free window, or nothing when there is none; the address returned is
        that of its first page. */
    method Allocate(pages: nat) returns (r: Option<nat>)
      requires Valid() && pages > 0
      modifies table
      ensures Valid()
      ensures match FirstFit(old(table[..]), pages, 0)
        case None => r == None && table[..] == old(table[..])
        case Some(s) =>
          && r == Some(layout.PageAddr(s))
          && table[..] == MarkRun(old(table[..]), s, pages)
          && Runs(table[..]) == Runs(old(table[..]))[s := pages]
    {
      ghost var before := table[..];
      var s := 0;
      while s + pages <= table.Length
        invariant 0 <= s && table[..] == before
        invariant forall k: nat :: k < s ==> !FreeWindow(before, k, pages)
        decreases table.Length - s
      {
        var j := 0;
        while j < pages && !IsTaken(table[s + j])
          invariant 0 <= j <= pages && table[..] == before
          invariant forall i :: s <= i < s + j ==> !IsTaken(before[i])
        {
          j := j + 1;
        }
        if j == pages {
          assert FreeWindow(before, s, pages);
          FirstFitIs(before, pages, s);
          MarkRunAddsRun(before, s, pages);
          Mark(s, pages);
          return Some(layout.PageAddr(s));
        }
        assert IsTaken(before[s + j]);
        s := s + 1;
      }
      FirstFitNone(before, pages);
      return None;
    }

    method Mark(s: nat, pages: nat)
      requires pages > 0 && s + pages <= table.Length
      modifies table
      ensures table[..] == MarkRun(old(table[..]), s, pages)
    {
      ghost var before := table[..];
      for i := s to s + pages
        invariant forall k :: 0 <= k < table.Length ==>
          table[k] == if s <= k < i then before[k] | TAKEN else before[k]
      {
        table[i] := table[i] | TAKEN;
      }
      table[s + pages - 1] := table[s + pages - 1] | LAST;
      assert table[..] == MarkRun(before, s, pages);
    }

    /** Free the run that starts at `addr`. A false answer is the panic of a failed assertion: the
        address is outside the pages, or the page is not taken. */
    method Deallocate(addr: nat) returns (ok: bool)
      requires table.Length == layout.Count()
      modifies table
      ensures ok <==>
        && layout.AllocStart() <= addr < layout.HeapEnd()
        && FreeFrom(old(table[..]), (addr - layout.AllocStart()) / PAGE_SIZE).Some?
      ensures ok ==> table[..] == FreeFrom(old(table[..]), (addr - layout.AllocStart()) / PAGE_SIZE).value
      ensures ok && old(Valid()) && IsStart(old(table[..]), (addr - layout.AllocStart()) / PAGE_SIZE) ==>
        Valid() && Runs(table[..]) == Runs(old(table[..])) - {(addr - layout.AllocStart()) / PAGE_SIZE}
    {
      if !(layout.AllocStart() <= addr < layout.HeapEnd()) {
        return false;
      }
      var i := (addr - layout.AllocStart()) / PAGE_SIZE;
      ghost var first, before := i, table[..];
      while i < table.Length && IsTaken(table[i]) && !IsLast(table[i])
        invariant first <= i
        invariant FreeFrom(table[..], i) == FreeFrom(before, first)
        decreases table.Length - i
      {
        ghost var t := table[..];
        table[i] := 0;
        assert table[..] == t[i := 0];
        i := i + 1;
      }
      if i >= table.Length || !(IsTaken(table[i]) && IsLast(table[i])) {
        return false;
      }
      ghost var t := table[..];
      table[i] := 0;
      assert table[..] == t[i := 0];
      if WellFormed(before) && IsStart(before, first) {
        FreeRemovesRun(before, first);
      }
      return true;
    }
  }

  lemma FirstFitIs(t: seq<bv8>, p: nat, s: nat)
    requires FreeWindow(t, s, p) && forall k: nat :: k < s ==> !FreeWindow(t, k, p)
    ensures FirstFit(t, p, 0) == Some(s)
  {
    var r := FirstFit(t, p, 0);
  }

  lemma FirstFitNone(t: seq<bv8>, p: nat)
    requires forall k: nat :: k + p <= |t| ==> !FreeWindow(t, k, p)
    ensures FirstFit(t, p, 0) == None
  {
    var r := FirstFit(t, p, 0);
  }
}
