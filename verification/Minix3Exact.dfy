/** Exactly when a walk over sorted blocks takes each position of its window once and in order. */
module Minix3Exact {
  import opened Minix3
  import opened Minix3Proofs

  // ---------------------------------------------------------------- exact reads

  /** The chunks cover the file offsets from `a` up to `b`, each once and in order. */
  ghost predicate Chain(chunks: seq<Chunk>, a: nat, b: nat) {
    if chunks == [] then a == b
    else
      var c := chunks[|chunks|-1];
      c.len > 0 && c.start + c.from + c.len == b && Chain(chunks[..|chunks|-1], a, c.start + c.from)
  }

  /** The read finished having copied exactly the window. */
  ghost predicate Exact(p: Progress, lo: nat, end: nat) {
    p.Full? && Chain(p.chunks, lo, end)
  }

  ghost predicate Sorted(events: seq<Event>) {
    && (forall i :: 0 <= i < |events| ==> events[i].start % BLOCK == 0)
    && (forall i, j :: 0 <= i < j < |events| ==> events[i].start + BLOCK <= events[j].start)
  }

  /** Every block of the window has a data zone. */
  ghost predicate Covered(events: seq<Event>, lo: nat, end: nat) {
    forall b: nat :: b * BLOCK < end && lo < b * BLOCK + BLOCK ==> PresentAt(events, b)
  }

  ghost predicate PresentAt(events: seq<Event>, b: nat) {
    exists e :: e in events && e.start == b * BLOCK && e.zone != 0
  }

  /** The zero zones before the window are the last blocks before it, and reach right up to it: only
      then do they leave the read at its offset. */
  ghost predicate HolesHarmless(events: seq<Event>, lo: nat) {
    forall e :: e in events && e.zone == 0 && e.start + BLOCK <= lo ==>
      && (forall f :: f in events && e.start <= f.start && f.start + BLOCK <= lo ==> f.zone == 0)
      && HoleEndsAt(events, lo)
  }

  ghost predicate HoleEndsAt(events: seq<Event>, lo: nat) {
    exists f :: f in events && f.start + BLOCK == lo && f.zone == 0
  }

  // ---------------------------------------------------------------- chunks

  function Pos(c: Chunk): nat { c.start + c.from }

  /** A read that can no longer be exact: it went wrong, or its first byte is not the first of the window. */
  ghost predicate Lost(p: Progress, lo: nat) {
    p.Underflow? || p.Overrun? || (|p.chunks| > 0 && Pos(p.chunks[0]) != lo)
  }

  lemma {:induction false} ChainFirst(chunks: seq<Chunk>, a: nat, b: nat)
    requires Chain(chunks, a, b) && chunks != []
    ensures Pos(chunks[0]) == a && a < b
    decreases chunks
  {
    if |chunks| > 1 {
      ChainFirst(chunks[..|chunks|-1], a, Pos(chunks[|chunks|-1]));
    }
  }

  lemma LostNotExact(p: Progress, lo: nat, end: nat)
    requires Lost(p, lo) && lo < end
    ensures !Exact(p, lo, end)
  {
    if Exact(p, lo, end) {
      ChainFirst(p.chunks, lo, end);
    }
  }

  lemma {:induction false} LostStays(p: Progress, events: seq<Event>, lo: nat, end: nat, cap: nat)
    requires Lost(p, lo)
    ensures Lost(CopyAll(p, events, end, cap), lo)
    decreases events
  {
    if events != [] {
      hide Length;
      LostStays(StepZone(p, events[0], end, cap), events[1..], lo, end, cap);
    }
  }

  // ---------------------------------------------------------------- before the window

  lemma {:induction false} SkipPhase(events: seq<Event>, lo: nat, end: nat, cap: nat)
    requires lo < end && forall i :: 0 <= i < |events| ==> events[i].zone != 0 && events[i].start + BLOCK <= lo
    ensures CopyAll(More(lo, []), events, end, cap) == More(lo, [])
    decreases events
  {
    if events != [] {
      assert events[0].zone != 0;
      SkipPhase(events[1..], lo, end, cap);
    }
  }

  lemma RestSorted(events: seq<Event>)
    requires Sorted(events) && events != []
    ensures Sorted(events[1..])
  {
  }

  ghost predicate AllHoles(events: seq<Event>) {
    forall i :: 0 <= i < |events| ==> events[i].zone == 0
  }

  function EndOr(events: seq<Event>, cur: nat): nat {
    if events == [] then cur else events[|events|-1].start + BLOCK
  }

  /** After a zero zone before the window: more zero zones move the offset on, a data block before
      the window is copied from its start or underflows. */
  lemma {:induction false} HolePhase(events: seq<Event>, cur: nat, lo: nat, end: nat, cap: nat)
    requires Sorted(events) && cur <= lo < end && forall i :: 0 <= i < |events| ==> events[i].start + BLOCK <= lo
    requires events != [] ==> cur <= events[0].start
    ensures if AllHoles(events)
            then CopyAll(More(cur, []), events, end, cap) == More(EndOr(events, cur), [])
            else Lost(CopyAll(More(cur, []), events, end, cap), lo)
    decreases events
  {
    if events != [] {
      var e, rest := events[0], events[1..];
      CopyAllUnfold(More(cur, []), events, end, cap);
      assert Length([]) == 0;
      RestSorted(events);
      assert rest != [] ==> rest[0] == events[1];
      if e.zone == 0 {
        HolePhase(rest, e.start + BLOCK, lo, end, cap);
        assert AllHoles(events) <==> AllHoles(rest) by {
          assert forall i :: 0 <= i < |rest| ==> rest[i] == events[i + 1];
          assert forall i :: 0 < i < |events| ==> events[i] == rest[i - 1];
        }
      } else {
        LostStays(StepZone(More(cur, []), e, end, cap), rest, lo, end, cap);
      }
    }
  }

  // ---------------------------------------------------------------- the window

  /** All events end after the window's first byte. */
  ghost predicate After(events: seq<Event>, lo: nat) {
    forall i :: 0 <= i < |events| ==> lo < events[i].start + BLOCK
  }

  /** Past the first byte of the window with nothing copied, the read cannot become exact. */
  lemma {:induction false} MissedPhase(events: seq<Event>, cur: nat, lo: nat, end: nat, cap: nat)
    requires lo < cur < end && After(events, lo)
    ensures !Exact(CopyAll(More(cur, []), events, end, cap), lo, end)
    decreases events
  {
    if events != [] {
      var p := StepZone(More(cur, []), events[0], end, cap);
      assert Length([]) == 0;
      CopyAllUnfold(More(cur, []), events, end, cap);
      hide CopyAll;
      if p.More? && p.chunks == [] {
        MissedPhase(events[1..], p.cur, lo, end, cap);
      } else if p.Full? && p.chunks == [] {
        CopyAllDone(p, events[1..], end, cap);
      } else {
        LostStays(p, events[1..], lo, end, cap);
        LostNotExact(CopyAll(p, events[1..], end, cap), lo, end);
      }
    }
  }

  /** Back before the window with nothing copied, the read cannot become exact either. */
  lemma RewoundPhase(events: seq<Event>, cur: nat, lo: nat, end: nat, cap: nat)
    requires cur < lo < end && After(events, lo) && (events != [] ==> cur <= events[0].start)
    ensures !Exact(CopyAll(More(cur, []), events, end, cap), lo, end)
  {
    if events != [] {
      var e := events[0];
      var p := StepZone(More(cur, []), e, end, cap);
      assert Length([]) == 0;
      CopyAllUnfold(More(cur, []), events, end, cap);
      hide CopyAll;
      if e.zone != 0 {
        LostStays(p, events[1..], lo, end, cap);
        LostNotExact(CopyAll(p, events[1..], end, cap), lo, end);
      } else if p.More? {
        MissedPhase(events[1..], p.cur, lo, end, cap);
      } else {
        CopyAllDone(p, events[1..], end, cap);
      }
    }
  }

  lemma {:induction false} ChainLength(chunks: seq<Chunk>, a: nat, b: nat)
    requires Chain(chunks, a, b)
    ensures a <= b && Length(chunks) == b - a
    decreases chunks
  {
    if chunks != [] {
      ChainLength(chunks[..|chunks|-1], a, Pos(chunks[|chunks|-1]));
    }
  }

  lemma ChainSnoc(chunks: seq<Chunk>, c: Chunk, a: nat, b: nat)
    requires Chain(chunks, a, b) && Pos(c) == b && c.len > 0
    ensures Chain(chunks + [c], a, b + c.len)
  {
    assert (chunks + [c])[..|chunks|] == chunks;
  }

  /** The block that holds `cur` is the first event when all events end after `cur`. */
  lemma FirstIsPresent(events: seq<Event>, cur: nat)
    requires Sorted(events) && After(events, cur) && PresentAt(events, cur / BLOCK)
    ensures events != [] && events[0].start == cur / BLOCK * BLOCK && events[0].zone != 0
  {
    var e :| e in events && e.start == cur / BLOCK * BLOCK && e.zone != 0;
    var i :| 0 <= i < |events| && events[i] == e;
    assert cur < events[0].start + BLOCK;
  }

  /** From inside the window, with every block up to the end present, the read completes exactly. */
  lemma {:induction false} WindowPhase(events: seq<Event>, cur: nat, chunks: seq<Chunk>, lo: nat, end: nat, cap: nat)
    requires Sorted(events) && After(events, cur) && lo <= cur < end && end - lo <= cap
    requires Covered(events, cur, end) && Chain(chunks, lo, cur)
    ensures Exact(CopyAll(More(cur, chunks), events, end, cap), lo, end)
    decreases events
  {
    var b := cur / BLOCK;
    assert PresentAt(events, b);
    FirstIsPresent(events, cur);
    var e, rest := events[0], events[1..];
    ChainLength(chunks, lo, cur);
    var c := Chunk(e.zone, e.start, cur - e.start, Min(BLOCK - (cur - e.start), end - cur));
    ChainSnoc(chunks, c, lo, cur);
    CopyAllUnfold(More(cur, chunks), events, end, cap);
    var p := StepZone(More(cur, chunks), e, end, cap);
    assert p == if cur + c.len < end then More(cur + c.len, chunks + [c]) else Full(chunks + [c]);
    hide CopyAll, StepZone, Chain;
    if p.Full? {
      CopyAllDone(p, rest, end, cap);
    } else {
      RestSorted(events);
      RestCovered(events, cur, end);
      WindowPhase(rest, e.start + BLOCK, chunks + [c], lo, end, cap);
    }
  }

  lemma RestCovered(events: seq<Event>, cur: nat, end: nat)
    requires Sorted(events) && events != [] && Covered(events, cur, end) && events[0].start == cur / BLOCK * BLOCK
    ensures After(events[1..], events[0].start + BLOCK) && Covered(events[1..], events[0].start + BLOCK, end)
  {
    var next := events[0].start + BLOCK;
    forall b: nat | b * BLOCK < end && next < b * BLOCK + BLOCK ensures PresentAt(events[1..], b) {
      assert PresentAt(events, b);
      var e :| e in events && e.start == b * BLOCK && e.zone != 0;
      var i :| 0 <= i < |events| && events[i] == e;
      assert i > 0 && events[1..][i-1] == e;
    }
  }

  // ---------------------------------------------------------------- necessity

  /** Every chunk comes from a data block the walk met. */
  ghost predicate FromEvents(chunks: seq<Chunk>, events: seq<Event>) {
    forall c :: c in chunks ==> Event(c.zone, c.start) in events && c.zone != 0 && c.from + c.len <= BLOCK
  }

  ghost predicate ProgressFrom(p: Progress, events: seq<Event>) {
    p.More? || p.Full? ==> FromEvents(p.chunks, events)
  }

  lemma {:induction false} CopyFromEvents(p: Progress, events: seq<Event>, all: seq<Event>, end: nat, cap: nat)
    requires ProgressFrom(p, all) && forall e :: e in events ==> e in all
    ensures ProgressFrom(CopyAll(p, events, end, cap), all)
    decreases events
  {
    if events != [] {
      hide Length;
      assert events[0] in all;
      CopyFromEvents(StepZone(p, events[0], end, cap), events[1..], all, end, cap);
    }
  }

  lemma {:induction false} ChainCovers(chunks: seq<Chunk>, a: nat, b: nat, x: nat) returns (c: Chunk)
    requires Chain(chunks, a, b) && a <= x < b
    ensures c in chunks && Pos(c) <= x < Pos(c) + c.len
    decreases chunks
  {
    c := chunks[|chunks|-1];
    if x < Pos(c) {
      c := ChainCovers(chunks[..|chunks|-1], a, Pos(c), x);
    }
  }

  lemma ExactCovered(p: Progress, events: seq<Event>, lo: nat, end: nat)
    requires Exact(p, lo, end) && FromEvents(p.chunks, events) && Sorted(events) && lo < end
    ensures Covered(events, lo, end)
  {
    forall b: nat | b * BLOCK < end && lo < b * BLOCK + BLOCK ensures PresentAt(events, b) {
      var x := Max(lo, b * BLOCK);
      var c := ChainCovers(p.chunks, lo, end, x);
      var e := Event(c.zone, c.start);
      assert e in events && e.start % BLOCK == 0;
      assert e.start == b * BLOCK;
    }
  }

  // ---------------------------------------------------------------- splitting the walk at the window

  lemma {:induction false} SplitAt(events: seq<Event>, lo: nat) returns (w: nat)
    requires Sorted(events)
    ensures w <= |events|
    ensures (forall i :: 0 <= i < w ==> events[i].start + BLOCK <= lo) && After(events[w..], lo)
    decreases events
  {
    if events == [] || lo < events[0].start + BLOCK {
      w := 0;
      forall i | 0 <= i < |events| ensures lo < events[i].start + BLOCK {
        assert i > 0 ==> events[0].start + BLOCK <= events[i].start;
      }
      assert events[0..] == events;
    } else {
      RestSorted(events);
      var v := SplitAt(events[1..], lo);
      w := v + 1;
      assert events[w..] == events[1..][v..];
      assert forall i :: 0 < i < w ==> events[i] == events[1..][i-1];
    }
  }

  lemma {:induction false} FirstHole(events: seq<Event>) returns (k: nat)
    ensures k <= |events| && (forall i :: 0 <= i < k ==> events[i].zone != 0) && (k < |events| ==> events[k].zone == 0)
    decreases events
  {
    if events == [] || events[0].zone == 0 {
      k := 0;
    } else {
      var j := FirstHole(events[1..]);
      k := j + 1;
      assert forall i :: 0 < i < k ==> events[i] == events[1..][i-1];
    }
  }

  lemma SliceSorted(events: seq<Event>, a: nat, b: nat)
    requires Sorted(events) && a <= b <= |events|
    ensures Sorted(events[a..b])
  {
  }

  /** The walk up to the window: the offset is where it should be exactly when the holes are harmless. */
  lemma BeforeWindow(head: seq<Event>, lo: nat, end: nat, cap: nat) returns (p: Progress)
    requires Sorted(head) && lo < end && forall i :: 0 <= i < |head| ==> head[i].start + BLOCK <= lo
    ensures p == CopyAll(More(lo, []), head, end, cap)
    ensures HolesHarmless(head, lo) ==> p == More(lo, [])
    ensures !HolesHarmless(head, lo) ==>
      Lost(p, lo) || (head != [] && head[|head|-1].start + BLOCK < lo && p == More(head[|head|-1].start + BLOCK, []))
  {
    p := CopyAll(More(lo, []), head, end, cap);
    var k := FirstHole(head);
    var skip, tail := head[..k], head[k..];
    assert head == skip + tail;
    SkipPhase(skip, lo, end, cap);
    CopyAllConcat(More(lo, []), skip, tail, end, cap);
    if k == |head| {
      assert forall e :: e in head ==> e.zone != 0;
    } else {
      AfterFirstHole(head, k, lo, end, cap);
    }
  }

  lemma AfterFirstHole(head: seq<Event>, k: nat, lo: nat, end: nat, cap: nat)
    requires Sorted(head) && lo < end && forall i :: 0 <= i < |head| ==> head[i].start + BLOCK <= lo
    requires k < |head| && head[k].zone == 0 && (forall i :: 0 <= i < k ==> head[i].zone != 0)
    ensures var p := CopyAll(More(lo, []), head[k..], end, cap);
      && (HolesHarmless(head, lo) ==> p == More(lo, []))
      && (!HolesHarmless(head, lo) ==>
            Lost(p, lo) || (head[|head|-1].start + BLOCK < lo && p == More(head[|head|-1].start + BLOCK, [])))
  {
    hide *;
    var rest := TailFacts(head, k, lo, end, cap);
    RestEnd(head, k);
    HarmlessThen(head, k, lo);
    HarmlessIf(head, k, lo);
    HolePhase(rest, head[k].start + BLOCK, lo, end, cap);
  }

  lemma TailFacts(head: seq<Event>, k: nat, lo: nat, end: nat, cap: nat) returns (rest: seq<Event>)
    requires Sorted(head) && lo < end && forall i :: 0 <= i < |head| ==> head[i].start + BLOCK <= lo
    requires k < |head| && head[k].zone == 0
    ensures rest == head[k..][1..] && Sorted(rest) && (rest != [] ==> head[k].start + BLOCK <= rest[0].start)
    ensures forall i :: 0 <= i < |rest| ==> rest[i].start + BLOCK <= lo
    ensures CopyAll(More(lo, []), head[k..], end, cap) == CopyAll(More(head[k].start + BLOCK, []), rest, end, cap)
    ensures head[|head|-1].start + BLOCK <= lo
  {
    rest := head[k..][1..];
    SliceSorted(head, k, |head|);
    RestSorted(head[k..]);
    CopyAllUnfold(More(lo, []), head[k..], end, cap);
    assert StepZone(More(lo, []), head[k], end, cap) == More(head[k].start + BLOCK, []);
  }

  lemma RestEnd(head: seq<Event>, k: nat)
    requires k < |head|
    ensures EndOr(head[k..][1..], head[k].start + BLOCK) == head[|head|-1].start + BLOCK
  {
    var rest := head[k..][1..];
    assert |rest| > 0 ==> rest[|rest|-1] == head[|head|-1];
  }

  /** With a first hole at `k`, harmless means that only holes follow and the last one ends at the window. */
  lemma HarmlessThen(head: seq<Event>, k: nat, lo: nat)
    requires Sorted(head) && k < |head| && head[k].zone == 0
    requires forall i :: 0 <= i < |head| ==> head[i].start + BLOCK <= lo
    ensures HolesHarmless(head, lo) ==> AllHoles(head[k..][1..]) && head[|head|-1].start + BLOCK == lo
  {
    if HolesHarmless(head, lo) {
      var rest := head[k..][1..];
      assert head[k] in head;
      forall i | 0 <= i < |rest| ensures rest[i].zone == 0 {
        assert rest[i] == head[k + 1 + i];
        assert rest[i] in head && head[k].start <= rest[i].start;
      }
      assert HoleEndsAt(head, lo);
      var f :| f in head && f.start + BLOCK == lo && f.zone == 0;
      var i :| 0 <= i < |head| && head[i] == f;
      assert head[|head|-1].start + BLOCK <= lo;
    }
  }

  lemma HarmlessIf(head: seq<Event>, k: nat, lo: nat)
    requires Sorted(head) && k < |head| && head[k].zone == 0 && (forall i :: 0 <= i < k ==> head[i].zone != 0)
    ensures AllHoles(head[k..][1..]) && head[|head|-1].start + BLOCK == lo ==> HolesHarmless(head, lo)
  {
    var rest := head[k..][1..];
    if AllHoles(rest) && head[|head|-1].start + BLOCK == lo {
      forall j | k <= j < |head| ensures head[j].zone == 0 {
        assert j > k ==> rest[j - k - 1] == head[j];
      }
      assert head[|head|-1] in head;
      assert HoleEndsAt(head, lo);
      forall e, f | e in head && e.zone == 0 && f in head && e.start <= f.start ensures f.zone == 0 {
        LaterHole(head, k, e, f);
      }
    }
  }

  lemma LaterHole(head: seq<Event>, k: nat, e: Event, f: Event)
    requires Sorted(head) && (forall i :: 0 <= i < k && i < |head| ==> head[i].zone != 0)
    requires forall j :: k <= j < |head| ==> head[j].zone == 0
    requires e in head && e.zone == 0 && f in head && e.start <= f.start
    ensures f.zone == 0
  {
    var i :| 0 <= i < |head| && head[i] == e;
    var j :| 0 <= j < |head| && head[j] == f;
  }

  // ---------------------------------------------------------------- the condition on a walk

  lemma HarmlessHead(events: seq<Event>, w: nat, lo: nat)
    requires w <= |events| && After(events[w..], lo)
    ensures HolesHarmless(events, lo) <==> HolesHarmless(events[..w], lo)
  {
    var head := events[..w];
    assert forall i :: w <= i < |events| ==> events[w..][i - w] == events[i];
    forall e | e in events && e.start + BLOCK <= lo ensures e in head {
      var i :| 0 <= i < |events| && events[i] == e;
      assert head[i] == e;
    }
    forall e | e in head ensures e in events {
    }
    assert HoleEndsAt(events, lo) <==> HoleEndsAt(head, lo);
  }

  lemma CoveredTail(events: seq<Event>, w: nat, lo: nat, end: nat)
    requires w <= |events| && (forall i :: 0 <= i < w ==> events[i].start + BLOCK <= lo)
    ensures Covered(events, lo, end) ==> Covered(events[w..], lo, end)
  {
    var tail := events[w..];
    if Covered(events, lo, end) {
      forall b: nat | b * BLOCK < end && lo < b * BLOCK + BLOCK ensures PresentAt(tail, b) {
        assert PresentAt(events, b);
        var e :| e in events && e.start == b * BLOCK && e.zone != 0;
        var i :| 0 <= i < |events| && events[i] == e;
        assert i >= w && tail[i - w] == e;
      }
    }
  }

  lemma SplitWalk(events: seq<Event>, lo: nat, end: nat, cap: nat) returns (head: seq<Event>, tail: seq<Event>)
    requires Sorted(events)
    ensures events == head + tail && Sorted(head) && Sorted(tail) && After(tail, lo)
    ensures forall i :: 0 <= i < |head| ==> head[i].start + BLOCK <= lo
    ensures head != [] && tail != [] ==> head[|head|-1].start + BLOCK <= tail[0].start
    ensures HolesHarmless(events, lo) <==> HolesHarmless(head, lo)
    ensures Covered(events, lo, end) ==> Covered(tail, lo, end)
    ensures CopyAll(More(lo, []), events, end, cap) == CopyAll(CopyAll(More(lo, []), head, end, cap), tail, end, cap)
  {
    var w := SplitAt(events, lo);
    head, tail := events[..w], events[w..];
    assert events == head + tail;
    SliceSorted(events, 0, w);
    assert events[0..w] == head;
    SliceSorted(events, w, |events|);
    assert events[w..|events|] == tail;
    hide Covered, HolesHarmless, CopyAll;
    CopyAllConcat(More(lo, []), head, tail, end, cap);
    HarmlessHead(events, w, lo);
    CoveredTail(events, w, lo, end);
  }

  lemma WalkExactCovered(events: seq<Event>, lo: nat, end: nat, cap: nat)
    requires Sorted(events) && lo < end && Exact(CopyAll(More(lo, []), events, end, cap), lo, end)
    ensures Covered(events, lo, end)
  {
    CopyFromEvents(More(lo, []), events, events, end, cap);
    hide Covered, CopyAll, Chain, Sorted;
    ExactCovered(CopyAll(More(lo, []), events, end, cap), events, lo, end);
  }

  /** A walk copies exactly its window if and only if every block of the window is present and the
      holes before the window are harmless. */
  lemma EventsExactIff(events: seq<Event>, lo: nat, end: nat, cap: nat)
    requires Sorted(events) && lo < end && end - lo <= cap
    ensures Exact(CopyAll(More(lo, []), events, end, cap), lo, end) <==>
      Covered(events, lo, end) && HolesHarmless(events, lo)
  {
    hide *;
    var head, tail := SplitWalk(events, lo, end, cap);
    var p := BeforeWindow(head, lo, end, cap);
    if Exact(CopyAll(More(lo, []), events, end, cap), lo, end) {
      WalkExactCovered(events, lo, end, cap);
    }
    if !HolesHarmless(head, lo) {
      if Lost(p, lo) {
        LostStays(p, tail, lo, end, cap);
        LostNotExact(CopyAll(p, tail, end, cap), lo, end);
      } else {
        RewoundPhase(tail, p.cur, lo, end, cap);
      }
    } else if Covered(events, lo, end) {
      EmptyChain(lo);
      WindowPhase(tail, lo, [], lo, end, cap);
    }
  }

  lemma EmptyChain(lo: nat)
    ensures Chain([], lo, lo)
  {
  }
}
