/** A configured block device: the part of block_op before it waits and the part after. */
module BlockDevice {
  import opened PageFrame
  import opened Virtqueue
  import opened VirtioSystem
  import opened VirtioCalls

  datatype Answer = Started(req: nat) | Refused | Panic

  /** The queue after a request is on its way, if three descriptors were free. */
  function Launched(q: Queue, op: Io, req: nat): (r: Option<Queue>)
    requires QueueOk(q)
  {
    match ThreeFree(q.free)
    case None => None
    case Some(d) => Some(Publish(q.(free := TakeThree(q.free, d.0, d.1, d.2)), op, req, d.0, d.1, d.2))
  }

  /** Starting a request is exactly the transition system's three steps of a call, in a row. */
  lemma StartIsThreeSteps(s: State, op: Io)
    requires QueueOk(s.q) && |s.log.owner| == RING && CanBegin(s, op) && ThreeFree(s.q.free).Some?
    ensures var id, b := s.log.nextId, DoBegin(s, op);
      && CanClaim(b, id) && CanSubmit(DoClaim(b, id), id)
      && var t := DoSubmit(DoClaim(b, id), id);
      && var req := FirstFit(s.table, 1, 0).value;
      && Some(t.q) == Launched(s.q, op, req) && t.table == MarkRun(s.table, req, 1)
      && t.reqs == s.reqs[req := Init(op)] && t.calls[id].op == op && t.calls[id].req == req
      && t.calls[id].phase.Waiting?
  {
    hide FirstFit, MarkRun, Publish, ThreeFree;
    var b := DoBegin(s, op);
    var d := ThreeFree(s.q.free).value;
    assert LowestThree(s.q.free, d.0, d.1, d.2);
    assert QueueOk(b.q) && |b.log.owner| == RING;
  }

  /** Without three free descriptors the call ends at once, and the page it took is back. */
  lemma RefusedIsTwoSteps(s: State, op: Io)
    requires WellFormed(s.table) && QueueOk(s.q) && |s.log.owner| == RING && CanBegin(s, op)
    requires ThreeFree(s.q.free).None?
    ensures var b := DoBegin(s, op);
      CanClaim(b, s.log.nextId) && DoClaim(b, s.log.nextId).table == s.table && DoClaim(b, s.log.nextId).q == s.q
  {
    hide WellFormed, FirstFit, FreeFrom, MarkRun;
    FreeUndoesAllocate(s.table, FirstFit(s.table, 1, 0).value, 1);
  }

  class Device {
    const queue: VirtQueue
    const frames: PageFrames
    const readOnly: bool
    var reqs: map<nat, Request>

    ghost predicate Valid()
      reads this, queue, frames, frames.table
    {
      && queue.Valid() && frames.Valid()
      && (frames.table as object) !in {queue.free as object, queue.reqHead as object, queue.desc as object,
                                       queue.avail as object, queue.used as object}
    }

    constructor (queue: VirtQueue, frames: PageFrames, readOnly: bool)
      ensures this.queue == queue && this.frames == frames && this.readOnly == readOnly && reqs == map[]
    {
      this.queue, this.frames, this.readOnly := queue, frames, readOnly;
      reqs := map[];
    }

    /** Claim three descriptors and publish the request through them. */
    method Launch(op: Io, req: nat) returns (ok: bool)
      requires queue.Valid()
      modifies queue`availIdx, queue.free, queue.reqHead, queue.desc, queue.avail
      ensures queue.Valid()
      ensures ok ==> Launched(old(queue.State()), op, req) == Some(queue.State())
      ensures !ok ==> queue.State() == old(queue.State()) && ThreeFree(old(queue.free[..])).None?
    {
      ghost var q := queue.State();
      hide ThreeFree, Publish, FewerThanThree, LowestThree;
      var chain := queue.AllocDescChain();
      if chain.None? {
        return false;
      }
      var (a, b, c) := chain.value;
      Bounds(q.free, a, b, c);
      assert queue.State() == q.(free := TakeThree(q.free, a, b, c));
      queue.PublishChain(op, req, a, b, c);
      return true;
    }

    /** Up to and including the notification. A refusal leaves allocator and queue as they were. */
    method Start(op: Io) returns (r: Answer)
      requires Valid()
      modifies this`reqs, frames.table, queue`availIdx, queue.free, queue.reqHead, queue.desc, queue.avail
      ensures match r
        case Started(req) =>
          && Valid() && !(readOnly && op.write)
          && FirstFit(old(frames.table[..]), 1, 0) == Some(req)
          && frames.table[..] == MarkRun(old(frames.table[..]), req, 1)
          && req in reqs && reqs[req] == Request(if op.write then 1 else 0, op.offset / 512, op.buf, 255)
          && reqs == old(reqs)[req := Init(op)] && Launched(old(queue.State()), op, req) == Some(queue.State())
        case Refused =>
          && Valid() && frames.table[..] == old(frames.table[..]) && queue.State() == old(queue.State())
          && (forall x: nat :: x in reqs ==> x in old(reqs) && reqs[x] == old(reqs)[x])
          && ((readOnly && op.write) || FirstFit(old(frames.table[..]), 1, 0).None?
              || ThreeFree(old(queue.free[..])).None?)
        case Panic =>
          && FirstFit(old(frames.table[..]), 1, 0).Some? && ThreeFree(old(queue.free[..])).None?
          && frames.layout.PageAddr(FirstFit(old(frames.table[..]), 1, 0).value) >= frames.layout.HeapEnd()
    {
      hide FirstFit, MarkRun, ThreeFree, Publish, Launched, FreeFrom, Runs, WellFormed;
      if readOnly && op.write {
        return Refused;
      }
      ghost var t, q := frames.table[..], queue.State();
      var page := frames.Allocate(1);
      if page.None? {
        return Refused;
      }
      ghost var s := FirstFit(t, 1, 0).value;
      PageIndex(frames.layout, s);
      var req := (page.value - frames.layout.AllocStart()) / PAGE_SIZE;
      reqs := reqs[req := Init(op)];
      assert queue.State() == q;
      ghost var u := frames.table[..];
      var ok := Launch(op, req);
      assert frames.table[..] == u;
      if ok {
        return Started(req);
      }
      FreeUndoesAllocate(t, s, 1);
      ok := frames.Deallocate(page.value);
      reqs := reqs - {req};
      assert ok ==> frames.table[..] == t && queue.State() == q;
      return if ok then Refused else Panic;
    }

    /** After the status byte has changed: the answer, and the page goes back. */
    method Complete(req: nat) returns (ok: bool, freed: bool)
      requires Valid() && req in reqs && reqs[req].status != PENDING && OnePage(frames.table[..], req)
      modifies this`reqs, frames.table
      ensures ok <==> old(reqs)[req].status == 0
      ensures freed <==> frames.layout.PageAddr(req) < frames.layout.HeapEnd()
      ensures freed ==> Valid() && frames.table[..] == old(frames.table[..])[req := 0] && reqs == old(reqs) - {req}
    {
      ok := reqs[req].status == 0;
      GivePage(frames.table[..], req);
      PageIndex(frames.layout, req);
      freed := frames.Deallocate(frames.layout.PageAddr(req));
      if freed {
        reqs := reqs - {req};
      }
    }
  }

  lemma Bounds(free: seq<bool>, a: nat, b: nat, c: nat)
    requires LowestThree(free, a, b, c)
    ensures a < |free| && b < |free| && c < |free|
  {
  }

  lemma PageIndex(l: Layout, i: nat)
    ensures (l.PageAddr(i) - l.AllocStart()) / PAGE_SIZE == i && l.PageAddr(i) >= l.AllocStart()
  {
  }
}
