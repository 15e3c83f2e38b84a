/** Exactly when a read goes wrong: when it runs past its output, or subtracts a larger offset from a smaller one. */
module Minix3Safe {
  import opened Minix3
  import opened Minix3Proofs
  import opened Minix3Exact
  import opened Minix3Walk

  ghost predicate GoesWrong(p: Progress) { p.Underflow? || p.Overrun? }

  // ---------------------------------------------------------------- how much a walk copies

  function PartLength(e: Event, lo: nat, end: nat): nat {
    if e.zone != 0 && Max(lo, e.start) < Min(end, e.start + BLOCK) then Min(end, e.start + BLOCK) - Max(lo, e.start)
    else 0
  }

  /** The bytes of the window that lie in nonzero blocks. */
  function Load(events: seq<Event>, lo: nat, end: nat): nat {
    if events == [] then 0 else PartLength(events[0], lo, end) + Load(events[1..], lo, end)
  }

  lemma {:induction false} LengthJoin(a: seq<Chunk>, b: seq<Chunk>)
    ensures Length(a + b) == Length(a) + Length(b)
    decreases b
  {
    if b == [] {
      assert a + b == a;
    } else {
      var k := |b| - 1;
      assert (a + b)[..|a + b| - 1] == a + b[..k];
      LengthJoin(a, b[..k]);
    }
  }

  lemma PartIs(e: Event, lo: nat, end: nat)
    ensures Length(PartOf(e, lo, end)) == PartLength(e, lo, end)
  {
    var part := PartOf(e, lo, end);
    assert Length([]) == 0;
    hide Length;
    if part != [] {
      LengthOne(part[0]);
      assert part == [part[0]];
    }
  }

  lemma {:induction false} LoadIs(events: seq<Event>, lo: nat, end: nat)
    ensures Length(Parts(events, lo, end)) == Load(events, lo, end)
    decreases events
  {
    if events != [] {
      hide PartOf, PartLength, Length;
      PartsCons(events, lo, end);
      PartIs(events[0], lo, end);
      LengthJoin(PartOf(events[0], lo, end), Parts(events[1..], lo, end));
      LoadIs(events[1..], lo, end);
    } else {
      assert Length([]) == 0;
    }
  }

  /** All events start at or after `cur`. */
  ghost predicate NotBefore(events: seq<Event>, cur: nat) {
    forall i :: 0 <= i < |events| ==> cur <= events[i].start
  }

  lemma RestAfter(events: seq<Event>)
    requires Sorted(events) && events != []
    ensures Sorted(events[1..]) && NotBefore(events[1..], events[0].start + BLOCK)
  {
    forall i | 0 <= i < |events[1..]| ensures events[0].start + BLOCK <= events[1..][i].start {
      assert events[1..][i] == events[i + 1];
    }
    RestSorted(events);
  }

  lemma {:induction false} LoadFrom(events: seq<Event>, a: nat, b: nat, end: nat)
    requires NotBefore(events, a) && NotBefore(events, b)
    ensures Load(events, a, end) == Load(events, b, end)
    decreases events
  {
    if events != [] {
      assert NotBefore(events[1..], a) && NotBefore(events[1..], b);
      LoadFrom(events[1..], a, b, end);
    }
  }

  lemma {:induction false} NothingBeyond(events: seq<Event>, lo: nat, end: nat)
    requires NotBefore(events, end)
    ensures Load(events, lo, end) == 0
    decreases events
  {
    if events != [] {
      assert NotBefore(events[1..], end);
      NothingBeyond(events[1..], lo, end);
    }
  }

  /** A walk never holds more bytes of a window than the window has. */
  lemma {:induction false} LoadBound(events: seq<Event>, lo: nat, end: nat)
    requires Sorted(events) && lo <= end
    ensures Load(events, lo, end) <= end - lo
    decreases events
  {
    if events != [] {
      var e, rest := events[0], events[1..];
      var next := e.start + BLOCK;
      RestAfter(events);
      if next >= end {
        assert NotBefore(rest, end);
        NothingBeyond(rest, lo, end);
      } else if next <= lo {
        LoadBound(rest, lo, end);
      } else {
        LoadFrom(rest, lo, next, end) by { assert NotBefore(rest, lo); }
        LoadBound(rest, next, end);
      }
    }
  }

  // ---------------------------------------------------------------- a walk in step

  /** Behind a block, or a hole, the next block follows without a gap as long as the window lasts. */
  ghost predicate NoGap(events: seq<Event>, end: nat) {
    forall i :: 1 <= i < |events| && events[i].zone != 0 && events[i-1].start + BLOCK < end ==>
      events[i].start == events[i-1].start + BLOCK
  }

  /** The first block met lies where the read is. */
  ghost predicate Meets(events: seq<Event>, cur: nat) {
    events != [] && events[0].zone != 0 ==> events[0].start == cur
  }

  lemma GapRest(events: seq<Event>, end: nat)
    requires Sorted(events) && events != []
    ensures events[0].start + BLOCK < end ==>
      (NoGap(events, end) <==> Meets(events[1..], events[0].start + BLOCK) && NoGap(events[1..], end))
    ensures events[0].start + BLOCK >= end ==> NoGap(events, end)
  {
    var rest := events[1..];
    assert forall i :: 0 <= i < |rest| ==> rest[i] == events[i + 1];
    if NoGap(events, end) {
      forall i | 1 <= i < |rest| && rest[i].zone != 0 && rest[i-1].start + BLOCK < end
        ensures rest[i].start == rest[i-1].start + BLOCK
      {
        assert events[i + 1].start == events[i].start + BLOCK;
      }
    }
    if events[0].start + BLOCK < end && Meets(rest, events[0].start + BLOCK) && NoGap(rest, end) {
      forall i | 1 <= i < |events| && events[i].zone != 0 && events[i-1].start + BLOCK < end
        ensures events[i].start == events[i-1].start + BLOCK
      {
        if i > 1 {
          assert rest[i-1].start == rest[i-2].start + BLOCK;
        }
      }
    }
  }

  /** What one event of a walk in step does. */
  lemma StepInStep(e: Event, cur: nat, end: nat, cap: nat, chunks: seq<Chunk>) returns (p: Progress)
    requires cur <= e.start && cur < end && Length(chunks) <= cap
    ensures p == StepZone(More(cur, chunks), e, end, cap)
    ensures GoesWrong(p) <==> e.zone != 0 && (e.start != cur || Length(chunks) + PartLength(e, cur, end) > cap)
    ensures !GoesWrong(p) && e.start + BLOCK < end ==>
      p.More? && p.cur == e.start + BLOCK && Length(p.chunks) == Length(chunks) + PartLength(e, cur, end) <= cap
    ensures !GoesWrong(p) && e.start + BLOCK >= end ==> p.Full?
  {
    p := StepZone(More(cur, chunks), e, end, cap);
    hide Length;
    if e.zone != 0 && e.start == cur {
      LengthSnoc(chunks, Chunk(e.zone, e.start, 0, Min(BLOCK, end - cur)));
    }
  }

  lemma NothingMet(cur: nat, end: nat, cap: nat, chunks: seq<Chunk>)
    ensures CopyAll(More(cur, chunks), [], end, cap) == More(cur, chunks) && NoGap([], end) && Load([], cur, end) == 0
  {
  }

  lemma LoadCons(events: seq<Event>, lo: nat, end: nat)
    requires events != []
    ensures Load(events, lo, end) == PartLength(events[0], lo, end) + Load(events[1..], lo, end)
    ensures events[0].zone == 0 ==> PartLength(events[0], lo, end) == 0
  {
  }

  /** From a block boundary on, a read goes wrong exactly at a gap before a block or when the output is too short. */
  lemma {:induction false} InStepIff(events: seq<Event>, cur: nat, end: nat, cap: nat, chunks: seq<Chunk>)
    requires Sorted(events) && NotBefore(events, cur) && cur < end && Length(chunks) <= cap
    ensures GoesWrong(CopyAll(More(cur, chunks), events, end, cap)) <==>
      !(Meets(events, cur) && NoGap(events, end) && Length(chunks) + Load(events, cur, end) <= cap)
    decreases events
  {
    hide CopyAll, StepZone, Length, Load, Sorted, PartLength, NoGap;
    if events == [] {
      NothingMet(cur, end, cap, chunks);
    } else {
      var e, rest := events[0], events[1..];
      var next := e.start + BLOCK;
      RestAfter(events);
      GapRest(events, end);
      CopyAllUnfold(More(cur, chunks), events, end, cap);
      var p := StepInStep(e, cur, end, cap, chunks);
      LoadCons(events, cur, end);
      if GoesWrong(p) {
        CopyAllDone(p, rest, end, cap);
      } else if next < end {
        LoadFrom(rest, cur, next, end) by { assert NotBefore(rest, cur); }
        InStepIff(rest, next, end, cap, p.chunks);
      } else {
        CopyAllDone(p, rest, end, cap);
        NothingBeyond(rest, cur, end) by { assert NotBefore(rest, end); }
      }
    }
  }

  // ---------------------------------------------------------------- the whole walk

  /** The first event that moves the read: a hole, or a block that ends behind the window's first byte. */
  function Turn(events: seq<Event>, lo: nat): (w: nat)
    ensures w <= |events|
    ensures forall i :: 0 <= i < w ==> events[i].zone != 0 && events[i].start + BLOCK <= lo
    ensures w < |events| ==> events[w].zone == 0 || events[w].start + BLOCK > lo
  {
    if events == [] || events[0].zone == 0 || events[0].start + BLOCK > lo then 0 else 1 + Turn(events[1..], lo)
  }

  /** From that event on, where does the read start to copy? A hole sends it to its own end, also backwards. */
  function CopiesFrom(tail: seq<Event>, lo: nat): nat {
    if tail != [] && tail[0].zone == 0 then tail[0].start else lo
  }

  /** The condition: the block that holds the window's first byte is met before any later one, no block follows a gap
      while the window lasts, and what is copied fits the output. */
  ghost predicate SafeWalk(events: seq<Event>, lo: nat, end: nat, cap: nat) {
    var tail := events[Turn(events, lo)..];
    && (tail != [] && tail[0].zone != 0 ==> tail[0].start <= lo)
    && NoGap(tail, end) && Load(tail, CopiesFrom(tail, lo), end) <= cap
  }

  lemma TurnHole(tail: seq<Event>, lo: nat, end: nat, cap: nat)
    requires Sorted(tail) && tail != [] && tail[0].zone == 0 && lo < end
    ensures GoesWrong(CopyAll(More(lo, []), tail, end, cap)) <==>
      !(NoGap(tail, end) && Load(tail, tail[0].start, end) <= cap)
  {
    var e, rest := tail[0], tail[1..];
    var next := e.start + BLOCK;
    RestAfter(tail);
    GapRest(tail, end);
    CopyAllUnfold(More(lo, []), tail, end, cap);
    assert Length([]) == 0 && Load(tail, e.start, end) == Load(rest, e.start, end);
    assert NotBefore(rest, e.start);
    hide CopyAll, Load, NoGap, Sorted;
    LoadFrom(rest, e.start, next, end);
    if next < end {
      InStepIff(rest, next, end, cap, []);
    } else {
      CopyAllDone(Full([]), rest, end, cap);
      NothingBeyond(rest, e.start, end) by { assert NotBefore(rest, end); }
    }
  }

  lemma TurnBlock(tail: seq<Event>, lo: nat, end: nat, cap: nat)
    requires Sorted(tail) && tail != [] && tail[0].zone != 0 && tail[0].start + BLOCK > lo && lo < end
    requires end - lo <= cap
    ensures GoesWrong(CopyAll(More(lo, []), tail, end, cap)) <==> !(tail[0].start <= lo && NoGap(tail, end))
    ensures Load(tail, lo, end) <= cap
  {
    var e, rest := tail[0], tail[1..];
    var next := e.start + BLOCK;
    LoadBound(tail, lo, end);
    RestAfter(tail);
    GapRest(tail, end);
    CopyAllUnfold(More(lo, []), tail, end, cap);
    assert Length([]) == 0;
    assert Load(tail, lo, end) == PartLength(e, lo, end) + Load(rest, lo, end);
    var p := StepZone(More(lo, []), e, end, cap);
    if e.start > lo {
      hide CopyAll;
      CopyAllDone(Underflow, rest, end, cap);
    } else {
      var c := Chunk(e.zone, e.start, lo - e.start, Min(next, end) - lo);
      assert [] + [c] == [c];
      LengthSnoc([], c);
      assert p == if next < end then More(next, [c]) else Full([c]);
      hide CopyAll, StepZone, Load, NoGap, Sorted, Length;
      if next < end {
        LoadFrom(rest, lo, next, end) by { assert NotBefore(rest, lo); }
        InStepIff(rest, next, end, cap, [c]);
      } else {
        CopyAllDone(p, rest, end, cap);
      }
    }
  }

  /** Over any sorted walk, a read goes wrong if and only if it meets a gap before a block, or a hole before the window
      sends it back so far that it copies more than the output holds. */
  lemma WalkSafeIff(events: seq<Event>, lo: nat, end: nat, cap: nat)
    requires Sorted(events) && lo < end && end - lo <= cap
    ensures GoesWrong(CopyAll(More(lo, []), events, end, cap)) <==> !SafeWalk(events, lo, end, cap)
  {
    hide CopyAll, NoGap, Sorted, Turn, Load;
    SkipToTurn(events, lo, end, cap);
    var tail := events[Turn(events, lo)..];
    if tail == [] {
      EndOfWalk(lo, end, cap);
    } else if tail[0].zone == 0 {
      TurnHole(tail, lo, end, cap);
    } else {
      TurnBlock(tail, lo, end, cap);
    }
  }

  lemma SkipToTurn(events: seq<Event>, lo: nat, end: nat, cap: nat)
    requires Sorted(events) && lo < end
    ensures var tail := events[Turn(events, lo)..];
      Sorted(tail) && CopyAll(More(lo, []), events, end, cap) == CopyAll(More(lo, []), tail, end, cap)
  {
    var w := Turn(events, lo);
    var head, tail := events[..w], events[w..];
    assert events == head + tail;
    SliceSorted(events, w, |events|);
    assert events[w..|events|] == tail;
    hide CopyAll, Sorted, Turn;
    CopyAllConcat(More(lo, []), head, tail, end, cap);
    SkipPhase(head, lo, end, cap);
  }

  lemma EndOfWalk(lo: nat, end: nat, cap: nat)
    ensures CopyAll(More(lo, []), [], end, cap) == More(lo, []) && NoGap([], end) && Load([], lo, end) == 0
  {
  }

  /** The exact condition for a read to go wrong, for every file and window. */
  lemma ReadSafeIff(disk: Disk, n: Inode, offset: nat, cap: nat, end: nat)
    requires Window(n, offset, cap, end)
    ensures offset < n.size && Want(n, offset, cap) > 0
    ensures GoesWrong(ReadChunks(disk, n, offset, cap)) <==> !SafeWalk(FileEvents(disk, n), offset, end, cap)
  {
    WindowFacts(disk, n, offset, cap, end);
    hide FileEvents, CopyAll, SafeWalk, Sorted;
    FileEventsSorted(disk, n);
    WalkSafeIff(FileEvents(disk, n), offset, end, cap);
  }

  /** Standing at `p`: no more was copied than the offset has moved, and no hole to come lies behind the offset. */
  ghost predicate InBounds(p: Progress, events: seq<Event>, lo: nat) {
    p.More? ==>
      && lo + Length(p.chunks) <= p.cur
      && forall i :: 0 <= i < |events| && events[i].zone == 0 ==> p.cur <= events[i].start + BLOCK
  }

  lemma StepInBounds(p: Progress, events: seq<Event>, lo: nat, end: nat, cap: nat)
    requires Sorted(events) && events != [] && InBounds(p, events, lo) && p != Overrun && lo < end && end - lo <= cap
    ensures var q := StepZone(p, events[0], end, cap); q != Overrun && InBounds(q, events[1..], lo)
  {
    if p.More? && p.cur < end {
      var e := events[0];
      var from := p.cur - e.start;
      if e.zone != 0 && 0 <= from < BLOCK {
        LengthSnoc(p.chunks, Chunk(e.zone, e.start, from, Min(BLOCK - from, end - p.cur)));
      }
    }
  }

  lemma {:induction false} NeverOver(p: Progress, events: seq<Event>, lo: nat, end: nat, cap: nat)
    requires Sorted(events) && InBounds(p, events, lo) && p != Overrun && lo < end && end - lo <= cap
    ensures CopyAll(p, events, end, cap) != Overrun
    decreases events
  {
    if events != [] {
      StepInBounds(p, events, lo, end, cap);
      RestAfter(events);
      hide StepZone, InBounds;
      NeverOver(StepZone(p, events[0], end, cap), events[1..], lo, end, cap);
    }
  }

  /** A read that runs past its output has met a hole before its window. */
  lemma OverrunNeedsHole(events: seq<Event>, lo: nat, end: nat, cap: nat)
    requires Sorted(events) && lo < end && end - lo <= cap && CopyAll(More(lo, []), events, end, cap) == Overrun
    ensures exists i :: 0 <= i < |events| && events[i].zone == 0 && events[i].start + BLOCK < lo
  {
    assert Length([]) == 0;
    if forall i :: 0 <= i < |events| && events[i].zone == 0 ==> lo <= events[i].start + BLOCK {
      NeverOver(More(lo, []), events, lo, end, cap);
    }
  }
}
