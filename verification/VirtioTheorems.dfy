/** What the driver guarantees over whole runs: descriptor ownership, the two wrapping rings, safe access by the
    device, and conservation of request pages. */
module VirtioTheorems {
  import opened PageFrame
  import opened Virtqueue
  import opened VirtioSystem
  import opened VirtioInv
  import opened VirtioKeeps
  import opened VirtioCalls

  // ---------------------------------------------------------------- descriptor ownership

  /** Heads submitted and not yet fetched, in order. */
  ghost function Waitlist(s: State): seq<nat> {
    if s.log.taken <= |s.log.submitted| then s.log.submitted[s.log.taken..] else []
  }

  /** Heads returned and not yet consumed, in order. */
  ghost function Backlist(s: State): seq<nat> {
    if s.log.acked <= |s.log.returned| then s.log.returned[s.log.acked..] else []
  }

  /** A chain the device may still use or the driver has still to consume. */
  ghost predicate Outstanding(s: State, h: nat) {
    h in Waitlist(s) || h in s.dev.jobs || h in Backlist(s)
  }

  lemma OutstandingIsChain(s: State, h: nat)
    requires Inv(s)
    ensures Outstanding(s, h) <==> h in s.log.chains
  {
    hide Chains, Owners, Lives, Calls, Misc;
    if h in s.log.chains {
      assert Placed(s, h);
      match s.log.chains[h].place
      case Queued(k) => assert Waitlist(s)[k - s.log.taken] == h;
      case Working =>
      case Returned(k) => assert Backlist(s)[k - s.log.acked] == h;
    }
    if h in Waitlist(s) {
      var k :| 0 <= k < |Waitlist(s)| && Waitlist(s)[k] == h;
      assert QueuedAt(s, s.log.taken + k);
    }
    if h in Backlist(s) {
      var k :| 0 <= k < |Backlist(s)| && Backlist(s)[k] == h;
      assert ReturnedAt(s, s.log.acked + k);
    }
  }

  /** The descriptors met from a head. */
  ghost function Path(q: Queue, h: nat): (p: seq<nat>) {
    match Walk(q.desc, h, RING) case Some(p) => p case None => []
  }

  /** A call that has taken descriptors and not yet published them. */
  ghost predicate Claiming(s: State, id: nat, d: nat) {
    && id in s.calls && s.calls[id].phase.Claimed?
    && (d == s.calls[id].phase.d0 || d == s.calls[id].phase.d1 || d == s.calls[id].phase.d2)
  }

  ghost predicate OnPath(s: State, h: nat, d: nat) {
    Outstanding(s, h) && d in Path(s.q, h)
  }

  lemma PathOf(s: State, h: nat)
    requires Inv(s) && h in s.log.chains
    ensures Path(s.q, h) == [h, s.log.chains[h].d1, s.log.chains[h].d2] && Held(s, h)
  {
    assert Held(s, h);
    hide Walk;
    PublishedWalk(s.q.desc, s.log.chains[h].op, s.log.chains[h].req, h, s.log.chains[h].d1, s.log.chains[h].d2);
  }

  /** Every outstanding chain ends after exactly three distinct descriptors, and two outstanding chains share none. */
  lemma ChainsDisjoint(s: State, h: nat, g: nat)
    requires Inv(s) && Outstanding(s, h) && Outstanding(s, g)
    ensures |Path(s.q, h)| == 3 && forall i, j :: 0 <= i < j < 3 ==> Path(s.q, h)[i] != Path(s.q, h)[j]
    ensures h != g ==> forall d :: d in Path(s.q, h) ==> d !in Path(s.q, g)
  {
    hide Path, Outstanding, Inv;
    OutstandingIsChain(s, h);
    OutstandingIsChain(s, g);
    PathOf(s, h);
    PathOf(s, g);
    HeldChains(s, h, g);
  }

  lemma HeldChains(s: State, h: nat, g: nat)
    requires Inv(s) && h in s.log.chains && g in s.log.chains
    ensures var c, d := s.log.chains[h], s.log.chains[g];
      && Distinct(h, c.d1, c.d2)
      && (h != g ==> Distinct(h, g, d.d1) && h != d.d2 && c.d1 !in [g, d.d1, d.d2] && c.d2 !in [g, d.d1, d.d2])
  {
    assert Held(s, h) && Held(s, g);
  }

  /** A descriptor is free exactly when it is in no outstanding chain and in no claim of a call. */
  lemma FreeExactly(s: State, d: nat)
    requires Inv(s) && d < RING
    ensures s.q.free[d] <==> (forall h: nat :: !OnPath(s, h, d)) && (forall id: nat :: !Claiming(s, id, d))
  {
    assert Owned(s, d);
    hide Path, Outstanding;
    forall h: nat | OnPath(s, h, d) ensures !s.q.free[d] {
      OutstandingIsChain(s, h);
      PathOf(s, h);
    }
    forall id: nat | Claiming(s, id, d) ensures !s.q.free[d] {
      assert Paged(s, id) && Phased(s, id);
    }
    match s.log.owner[d]
    case Nobody =>
    case ByChain(h) =>
      OutstandingIsChain(s, h);
      PathOf(s, h);
      assert OnPath(s, h, d);
    case ByCall(id) =>
      assert Claiming(s, id, d);
  }

  /** At most two chains are outstanding, and fewer when a call holds a claim. */
  lemma AtMostTwo(s: State, h: nat, g: nat, f: nat, id: nat)
    requires Inv(s) && h != g && Outstanding(s, h) && Outstanding(s, g)
    ensures Outstanding(s, f) ==> f == h || f == g
    ensures id in s.calls ==> !s.calls[id].phase.Claimed?
  {
    OutstandingIsChain(s, h);
    OutstandingIsChain(s, g);
    OutstandingIsChain(s, f);
    if f in s.log.chains {
      NoThreeChains(s, h, g, f);
    }
    if id in s.calls && s.calls[id].phase.Claimed? {
      assert Held(s, h) && Held(s, g) && Paged(s, id) && Phased(s, id);
      var c := s.calls[id].phase;
      hide Inv;
      HoldsThree(s.log.owner, ByChain(h), h, s.log.chains[h].d1, s.log.chains[h].d2);
      HoldsThree(s.log.owner, ByChain(g), g, s.log.chains[g].d1, s.log.chains[g].d2);
      HoldsThree(s.log.owner, ByCall(id), c.d0, c.d1, c.d2);
      NoThreeHolders(s.log.owner, ByChain(h), ByChain(g), ByCall(id));
    }
  }

  lemma OnlySubmitWrites(s: State, step: Step)
    requires Can(s, step) && !step.Submit?
    ensures Do(s, step).q.desc == s.q.desc
  {
  }

  lemma SubmitSpares(s: State, id: nat, d: nat)
    requires CanSubmit(s, id) && Submitted(s, id, DoSubmit(s, id)) && d < RING && s.log.owner[d].ByChain?
    ensures DoSubmit(s, id).q.desc[d] == s.q.desc[d]
  {
  }

  lemma StepSpares(s: State, step: Step, d: nat)
    requires Inv(s) && Can(s, step) && d < RING && |Do(s, step).q.desc| == RING && s.log.owner[d].ByChain?
    ensures Do(s, step).q.desc[d] == s.q.desc[d]
  {
    assert Shape(s);
    hide *;
    if step.Submit? {
      SubmitStep(s, step);
      SubmitIs(s, step.id);
      SubmitSpares(s, step.id, d);
    } else {
      OnlySubmitWrites(s, step);
    }
  }

  lemma ShapeOf(s: State)
    requires Inv(s)
    ensures |s.log.owner| == |s.q.desc| == RING
  {
  }

  lemma PathOwned(s: State, h: nat, d: nat)
    requires Inv(s) && OnPath(s, h, d)
    ensures d < RING && s.log.owner[d].ByChain?
  {
    OutstandingIsChain(s, h);
    PathOf(s, h);
  }

  /** No step, in any run, rewrites a descriptor of a chain that is outstanding. */
  lemma NeverRewritten(trace: seq<State>, steps: seq<Step>, i: nat, h: nat, d: nat)
    requires Run(trace, steps) && i < |steps| && OnPath(trace[i], h, d)
    ensures d < RING && |trace[i].q.desc| == |trace[i + 1].q.desc| == RING
    ensures trace[i + 1].q.desc[d] == trace[i].q.desc[d]
  {
    assert Follows(trace, steps, i);
    hide Do, Can, Inv, OnPath;
    AlwaysInv(trace, steps, i);
    AlwaysInv(trace, steps, i + 1);
    ShapeOf(trace[i]);
    ShapeOf(trace[i + 1]);
    PathOwned(trace[i], h, d);
    StepSpares(trace[i], steps[i], d);
  }

  lemma SubmitStep(s: State, step: Step)
    requires Can(s, step) && step.Submit?
    ensures CanSubmit(s, step.id) && Do(s, step) == DoSubmit(s, step.id)
  {
  }

  // ---------------------------------------------------------------- the rings are unbounded queues

  /** What the step does to the queue of submissions and the queue of returns. */
  ghost predicate QueueStep(s: State, step: Step, t: State) {
    match step
    case Submit(id) =>
      && id in s.calls && s.calls[id].phase.Claimed?
      && Waitlist(t) == Waitlist(s) + [s.calls[id].phase.d0] && Backlist(t) == Backlist(s)
    case Fetch =>
      && |s.q.avail| == RING && Waitlist(s) == [s.q.avail[s.dev.seen % RING]] + Waitlist(t)
      && Backlist(t) == Backlist(s)
    case Push(h) =>
      && Waitlist(t) == Waitlist(s) && Backlist(t) == Backlist(s) + [h]
    case Ack =>
      && Waitlist(t) == Waitlist(s) && |s.q.used| == RING && Backlist(s) == [s.q.used[s.q.ack % RING]] + Backlist(t)
    case _ =>
      Waitlist(t) == Waitlist(s) && Backlist(t) == Backlist(s)
  }

  /** Each side sees work exactly when the other side's unbounded queue holds some. */
  lemma IndicesTell(s: State)
    requires Inv(s)
    ensures CanFetch(s) <==> Waitlist(s) != []
    ensures s.q.ack != s.q.usedIdx <==> Backlist(s) != []
    ensures Backlog(s.q) == |Backlist(s)| && (s.q.availIdx - s.dev.seen) % 65536 == |Waitlist(s)|
    ensures |Waitlist(s)| <= 2 && |Backlist(s)| <= 2
  {
    Windows(s);
    assert Indices(s) && |s.q.avail| == 8;
    hide Inv;
    WrapDistance(s.log.taken, |s.log.submitted|);
    WrapDistance(s.log.acked, |s.log.returned|);
  }

  lemma WrapDistance(a: nat, b: nat)
    requires a <= b <= a + 2
    ensures (b % WRAP - a % WRAP) % WRAP == b - a
    ensures a % WRAP == b % WRAP <==> a == b
  {
    WrapDiffers(a, b);
  }

  lemma QuietStep(s: State, step: Step)
    requires Can(s, step) && !step.Submit? && !step.Fetch? && !step.Push? && !step.Ack?
    ensures QueueStep(s, step, Do(s, step))
  {
  }

  lemma SubmitQueues(s: State, id: nat)
    requires Indices(s) && CanSubmit(s, id)
    ensures QueueStep(s, Submit(id), DoSubmit(s, id))
  {
  }

  lemma FetchQueues(s: State, h: nat)
    requires Indices(s) && CanFetch(s) && s.log.taken < |s.log.submitted|
    requires h == s.log.submitted[s.log.taken] == s.q.avail[s.dev.seen % RING]
    ensures QueueStep(s, Fetch, DoFetch(s))
  {
  }

  lemma PushQueues(s: State, h: nat)
    requires Indices(s) && CanPush(s, h)
    ensures QueueStep(s, Push(h), DoPush(s, h))
  {
  }

  lemma AckQueues(s: State)
    requires Shape(s) && Indices(s) && CanAckUsed(s) && Rings(s) && s.log.acked < |s.log.returned|
    ensures QueueStep(s, Ack, DoAck(s))
  {
    hide Walk, Disown, Released;
    assert ReturnedAt(s, s.log.acked);
    WrapSlot(s.log.acked);
    assert DoAck(s).log.returned == s.log.returned && DoAck(s).log.acked == s.log.acked + 1;
    assert DoAck(s).log.submitted == s.log.submitted && DoAck(s).log.taken == s.log.taken;
  }

  /** Wrapping 16-bit indices taken modulo eight behave as two unbounded first-in first-out queues: publishing
      appends, the device takes the oldest, returning appends, and draining takes the oldest. */
  lemma RingsAreQueues(s: State, step: Step)
    requires Inv(s) && Can(s, step)
    ensures QueueStep(s, step, Do(s, step))
  {
    if step.Submit? {
      SubmitQueues(s, step.id);
    } else if step.Fetch? {
      var h := FetchHead(s);
      FetchQueues(s, h);
    } else if step.Push? {
      PushQueues(s, step.head);
    } else if step.Ack? {
      AckIs(s);
      AckQueues(s);
    } else {
      QuietStep(s, step);
    }
  }

  // ---------------------------------------------------------------- draining

  ghost predicate OnBacklog(s: State, d: nat) {
    exists h: nat :: h in Backlist(s) && d in Path(s.q, h)
  }

  lemma AckFrees(s: State, d: nat)
    requires Inv(s) && s.q.ack != s.q.usedIdx && d < RING && CanAckUsed(s) && Inv(DoAck(s))
    ensures DoAck(s).q == AckOne(s.q)
    ensures DoAck(s).q.free[d] || OnBacklog(DoAck(s), d) <==> s.q.free[d] || OnBacklog(s, d)
  {
    var t := DoAck(s);
    RingsAreQueues(s, Ack);
    AckIs(s);
    assert Shape(s) && Shape(t);
    var h := s.log.returned[s.log.acked];
    assert IsAt(s.log.chains, h, Returned(s.log.acked));
    PathOf(s, h);
    assert Backlist(s)[0] == h;
    hide Inv, Walk, QueueStep;
    assert forall g: nat :: Path(t.q, g) == Path(s.q, g);
    assert t.q.free[d] <==> s.q.free[d] || d in Path(s.q, h);
    if OnBacklog(s, d) {
      var g :| g in Backlist(s) && d in Path(s.q, g);
      assert g == h || g in Backlist(t);
    }
    assert h in Backlist(s);
  }

  lemma AckLeaves(s: State)
    requires Inv(s) && CanAckUsed(s)
    ensures var t := DoAck(s);
      && t.dev == s.dev && t.calls == s.calls && t.reqs == s.reqs && t.mem == s.mem && t.disk == s.disk
      && t.table == s.table
    ensures Waitlist(DoAck(s)) == Waitlist(s) && |Backlist(DoAck(s))| + 1 == |Backlist(s)|
  {
    hide Inv, Walk, Disown, AckOne;
    RingsAreQueues(s, Ack);
  }

  lemma DrainDone(q: Queue)
    requires QueueOk(q) && q.ack == q.usedIdx
    ensures Drainable(q) && Drain(q) == q
  {
  }

  lemma DrainMore(q: Queue)
    requires QueueOk(q) && q.ack != q.usedIdx && CanAck(q) && Drainable(AckOne(q))
    ensures Drainable(q) && Drain(q) == Drain(AckOne(q))
  {
    BacklogStep(q);
  }

  /** A drain with the device at rest ends, consumes exactly the returns that were waiting, frees exactly their
      descriptors, and touches nothing else. */
  lemma {:induction false} PendingDrains(s: State) returns (t: State)
    requires Inv(s)
    ensures Drainable(s.q) && t.q == Drain(s.q) && Inv(t)
    ensures Backlist(t) == [] && Waitlist(t) == Waitlist(s)
    ensures |s.q.free| == |t.q.free| == RING && forall d: nat :: d < RING ==>
      (t.q.free[d] <==> s.q.free[d] || OnBacklog(s, d))
    ensures t.dev == s.dev && t.calls == s.calls && t.reqs == s.reqs && t.mem == s.mem && t.disk == s.disk
    ensures t.table == s.table
    decreases |Backlist(s)|
  {
    IndicesTell(s);
    assert QueueOk(s.q);
    if s.q.ack == s.q.usedIdx {
      t := s;
      hide Inv;
      DrainDone(s.q);
    } else {
      AckIs(s);
      AckKeeps(s);
      var u := DoAck(s);
      assert u.q == AckOne(s.q) && CanAck(s.q);
      hide Inv, DoAck, AckOne, Drain, Drainable, OnBacklog, Waitlist, Backlist;
      AckLeaves(s);
      t := PendingDrains(u);
      DrainMore(s.q);
      forall d: nat | d < RING ensures t.q.free[d] <==> s.q.free[d] || OnBacklog(s, d) {
        AckFrees(s, d);
      }
    }
  }

  // ---------------------------------------------------------------- the device's accesses

  /** Whatever the device still has to touch is a live request page of a waiting call: it never follows a stale
      descriptor and never meets a page that has been given back. */
  lemma DeviceSafe(trace: seq<State>, steps: seq<Step>, i: nat, h: nat)
    requires Run(trace, steps) && i < |trace| && h in trace[i].dev.jobs && !trace[i].dev.jobs[h].Answered?
    ensures var s := trace[i];
      && Visible(s, h)
      && var req := s.q.desc[h].addr.req;
      && OnePage(s.table, req) && req in s.log.holder
      && var id := s.log.holder[req];
      && id in s.calls && s.calls[id].req == req && s.calls[id].phase == Waiting(h)
      && RequestOf(s, h) == Init(s.calls[id].op)
      && DataOf(s, h).addr == Bytes(s.calls[id].op.buf) && DataOf(s, h).len == s.calls[id].op.size
  {
    var s := trace[i];
    AlwaysInv(trace, steps, i);
    assert IsAt(s.log.chains, h, Working);
    DeviceSees(s, h);
    assert Live(s, h);
    assert Paged(s, s.log.chains[h].call);
  }

  /** When a call gives its request page back, no head the device has still to work on leads to that page. */
  lemma FreedAfterLastAccess(s: State, id: nat, h: nat)
    requires Inv(s) && CanFinish(s, id) && Outstanding(s, h) && h !in Backlist(s)
    requires h in s.dev.jobs ==> !s.dev.jobs[h].Answered?
    ensures Visible(s, h) && s.q.desc[h].addr.req != s.calls[id].req
  {
    OutstandingIsChain(s, h);
    assert Placed(s, h);
    DeviceSees(s, h);
    assert Live(s, h) && Paged(s, id);
  }

  // ---------------------------------------------------------------- conservation of pages

  /** The allocator's table with the request pages in flight taken out. */
  ghost function Rest(s: State): seq<bv8> {
    seq(|s.table|, i requires 0 <= i < |s.table| => if i in s.reqs then 0 else s.table[i])
  }

  lemma BeginRest(s: State, op: Io)
    requires Inv(s) && CanBegin(s, op)
    ensures Rest(DoBegin(s, op)) == Rest(s)
  {
    hide Rings, Places, Chains, Owners, Lives, Calls, Misc, WellFormed, FirstFit, MarkRun;
    TakePage(s.table, FirstFit(s.table, 1, 0).value);
  }

  lemma RetireRest(s: State, id: nat)
    requires Inv(s) && id in s.calls
    ensures Rest(Retire(s, id)) == Rest(s)
  {
    assert Paged(s, id);
    assert WellFormed(s.table);
    hide Inv, WellFormed, FreeFrom;
    GivePage(s.table, s.calls[id].req);
  }

  lemma OtherRest(s: State, step: Step)
    requires Can(s, step) && !step.Begin? && !step.Finish? && !step.Claim? && !step.Other? && !step.Answer?
    ensures Rest(Do(s, step)) == Rest(s)
  {
    hide FirstFit, MarkRun, WellFormed, Walk;
    assert Do(s, step).table == s.table && Do(s, step).reqs == s.reqs;
  }

  /** Only other code changes what is left when the requests in flight are taken out. */
  lemma StepConserves(s: State, step: Step)
    requires Inv(s) && Can(s, step) && !step.Other?
    ensures Rest(Do(s, step)) == Rest(s)
  {
    hide Inv;
    match step
    case Begin(op) => BeginRest(s, op);
    case Finish(id) => RetireRest(s, id);
    case Claim(id) =>
      if ThreeFree(s.q.free).None? {
        RetireRest(s, id);
      } else {
        assert Do(s, step).table == s.table && Do(s, step).reqs == s.reqs;
      }
    case Answer(h) => assert Rest(Do(s, step)) == Rest(s);
    case _ => OtherRest(s, step);
  }

  lemma AllAtRest(s: State)
    requires Inv(s)
    ensures s.calls == map[] ==> Rest(s) == s.table
  {
  }

  /** Calls of block_op, however they end and however they interleave with interrupts and the device, leave the
      allocator's table as they found it. */
  lemma {:induction false} BlockOpConserves(trace: seq<State>, steps: seq<Step>, i: nat, j: nat)
    requires Run(trace, steps) && i <= j < |trace| && forall k :: i <= k < j ==> !steps[k].Other?
    ensures Rest(trace[j]) == Rest(trace[i])
    ensures trace[i].calls == map[] && trace[j].calls == map[] ==> trace[j].table == trace[i].table
    decreases j - i
  {
    hide Inv, Rest, Can, Do;
    if i < j {
      BlockOpConserves(trace, steps, i, j - 1);
      AlwaysInv(trace, steps, j - 1);
      assert Follows(trace, steps, j - 1);
      StepConserves(trace[j - 1], steps[j - 1]);
    }
    AlwaysInv(trace, steps, i);
    AlwaysInv(trace, steps, j);
    AllAtRest(trace[i]);
    AllAtRest(trace[j]);
  }
}
