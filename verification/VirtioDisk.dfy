/** The driver, its queue and its device together behave as a disk with atomic reads and writes. */
module VirtioDisk {
  import opened PageFrame
  import opened Virtqueue
  import opened VirtioSystem
  import opened VirtioInv
  import opened VirtioKeeps
  import opened VirtioCalls

  /** Where on the disk an operation takes place: the start of the sector its offset lies in. */
  function Target(op: Io): nat { op.offset / 512 * 512 }

  /** A call on the atomic disk: made, or already carried out. */
  datatype DiskCall = Invoked(op: Io, data: seq<byte>) | Applied(op: Io, data: seq<byte>, effect: Effect)
  datatype Disk = Disk(bytes: seq<byte>, calls: map<nat, DiskCall>)
  datatype Event = Invoke(id: nat, op: Io, data: seq<byte>) | Apply(id: nat, effect: Effect)
                 | Return(id: nat, ok: bool, buffer: seq<byte>) | Silent

  /** The atomic disk. Carrying out a read takes the bytes off the disk; carrying out a write puts the caller's
      bytes on it; both in one step. A failed one promises nothing about its own range. */
  ghost predicate DiskStep(d: Disk, e: Event, d': Disk) {
    match e
    case Invoke(id, op, data) =>
      id !in d.calls && d' == Disk(d.bytes, d.calls[id := Invoked(op, data)])
    case Apply(id, effect) =>
      && id in d.calls && d.calls[id].Invoked?
      && var op, data := d.calls[id].op, d.calls[id].data;
      && d'.calls == d.calls[id := Applied(op, data, effect)]
      && d'.bytes == (if op.write then Splice(d.bytes, Target(op), effect.bytes) else d.bytes)
      && (effect.status == 0 ==>
            && Target(op) + op.size <= |d.bytes|
            && effect.bytes == if op.write then data else Slice(d.bytes, Target(op), op.size))
    case Return(id, ok, buffer) =>
      && id in d.calls && d' == Disk(d.bytes, d.calls - {id})
      && (ok <==> d.calls[id].Applied? && d.calls[id].effect.status == 0)
      && (ok ==> buffer == d.calls[id].effect.bytes)
    case Silent => d' == d
  }

  ghost function CallOf(s: State, id: nat): DiskCall
    requires id in s.calls
  {
    if id in s.log.moved then Applied(s.calls[id].op, s.calls[id].data, s.log.moved[id])
    else Invoked(s.calls[id].op, s.calls[id].data)
  }

  ghost function Abstract(s: State): Disk {
    Disk(s.disk, map id | id in s.calls :: CallOf(s, id))
  }

  ghost function Buffer(s: State, id: nat): seq<byte>
    requires id in s.calls
  {
    Slice(s.mem, s.calls[id].op.buf, s.calls[id].op.size)
  }

  /** What a step means to the atomic disk. */
  ghost function Meaning(s: State, step: Step): Event
    requires Can(s, step)
  {
    match step
    case Begin(op) => Invoke(s.log.nextId, op, Slice(s.mem, op.buf, op.size))
    case Claim(id) => if ThreeFree(s.q.free).None? then Return(id, false, Buffer(s, id)) else Silent
    case Transfer(h, status, bytes) =>
      if h in s.log.chains then Apply(s.log.chains[h].call, Effect(status, bytes)) else Silent
    case Finish(id) => Return(id, Succeeded(s, id), Buffer(s, id))
    case _ => Silent
  }

  /** What a transfer does, in terms of the call it serves. */
  lemma EffectAt(s: State, h: nat, status: nat, bytes: seq<byte>)
    requires Inv(s) && CanTransfer(s, h, status, bytes)
    ensures h in s.log.chains && s.log.chains[h].call in s.calls && s.log.chains[h].call !in s.log.moved
    ensures var t, c := DoTransfer(s, h, status, bytes), s.calls[s.log.chains[h].call];
      && t.calls == s.calls && t.log.moved == s.log.moved[s.log.chains[h].call := Effect(status, bytes)]
      && t.disk == (if c.op.write then Splice(s.disk, Target(c.op), bytes) else s.disk)
      && (status == 0 ==>
            && Target(c.op) + c.op.size <= |s.disk|
            && bytes == if c.op.write then c.data else Slice(s.disk, Target(c.op), c.op.size))
  {
    assert IsAt(s.log.chains, h, Working);
    assert Live(s, h);
    DeviceSees(s, h);
    assert Buffered(s, s.log.chains[h].call);
    hide Inv, Splice, Slice, Visible;
  }

  lemma AbstractBytes(s: State)
    ensures Abstract(s).bytes == s.disk
    ensures forall id: nat :: id in Abstract(s).calls <==> id in s.calls
    ensures forall id: nat :: id in s.calls ==> Abstract(s).calls[id] == CallOf(s, id)
  {
  }

  lemma AbstractUpdate(s: State, t: State, id: nat, c: DiskCall)
    requires id in t.calls && CallOf(t, id) == c
    requires forall x: nat :: x in t.calls <==> x in s.calls || x == id
    requires forall x: nat :: x in s.calls && x != id ==> CallOf(t, x) == CallOf(s, x)
    ensures Abstract(t).calls == Abstract(s).calls[id := c]
  {
  }

  lemma BeginMeans(s: State, op: Io)
    requires Inv(s) && CanBegin(s, op)
    ensures DiskStep(Abstract(s), Meaning(s, Begin(op)), Abstract(DoBegin(s, op)))
  {
    hide Inv, FirstFit, MarkRun, Slice, Abstract, Init, Apart, DiskStep;
    NextUnused(s);
    NewCallIsInvoke(s, DoBegin(s, op), s.log.nextId);
  }

  lemma NewCallIsInvoke(s: State, t: State, id: nat)
    requires id !in s.calls && id !in s.log.moved && id in t.calls && t.calls == s.calls[id := t.calls[id]]
    requires t.disk == s.disk && t.log.moved == s.log.moved
    ensures DiskStep(Abstract(s), Invoke(id, t.calls[id].op, t.calls[id].data), Abstract(t))
  {
    hide Abstract;
    AbstractUpdate(s, t, id, Invoked(t.calls[id].op, t.calls[id].data));
    AbstractBytes(s);
    AbstractBytes(t);
  }

  lemma NextUnused(s: State)
    requires Inv(s)
    ensures s.log.nextId !in s.calls && s.log.nextId !in s.log.moved
  {
    forall id: nat | id in s.calls ensures id < s.log.nextId {
      assert Paged(s, id);
    }
  }

  lemma RetireMeans(s: State, id: nat)
    requires id in s.calls
    ensures Abstract(Retire(s, id)) == Disk(s.disk, Abstract(s).calls - {id})
  {
    hide Freed;
    assert Abstract(Retire(s, id)).calls == Abstract(s).calls - {id};
  }

  lemma FinishMeans(s: State, id: nat)
    requires Inv(s) && CanFinish(s, id)
    ensures DiskStep(Abstract(s), Meaning(s, Finish(id)), Abstract(Retire(s, id)))
  {
    assert Paged(s, id) && Phased(s, id) && Buffered(s, id);
    hide Inv;
    RetireMeans(s, id);
  }

  lemma TookMeans(s: State, id: nat)
    requires CanClaim(s, id) && ThreeFree(s.q.free).Some?
    ensures Abstract(DoClaim(s, id)) == Abstract(s)
  {
    hide ThreeFree, TakeThree, Own;
    assert Abstract(DoClaim(s, id)).calls == Abstract(s).calls;
  }

  lemma ClaimMeans(s: State, id: nat)
    requires Inv(s) && CanClaim(s, id)
    ensures DiskStep(Abstract(s), Meaning(s, Claim(id)), Abstract(DoClaim(s, id)))
  {
    hide Inv, Abstract, ThreeFree, TakeThree, Own, Retire;
    PreparedUnmoved(s, id);
    if ThreeFree(s.q.free).None? {
      RefusedMeans(s, id);
    } else {
      TookMeans(s, id);
    }
  }

  lemma PreparedUnmoved(s: State, id: nat)
    requires Inv(s) && CanClaim(s, id)
    ensures id !in s.log.moved
  {
    assert Paged(s, id) && Phased(s, id);
  }

  lemma RefusedMeans(s: State, id: nat)
    requires id in s.calls && id !in s.log.moved
    ensures DiskStep(Abstract(s), Return(id, false, Buffer(s, id)), Abstract(Retire(s, id)))
  {
    hide Retire, Abstract, Buffer;
    RetireMeans(s, id);
    AbstractBytes(s);
  }

  lemma TransferUpdate(s: State, t: State, id: nat, effect: Effect)
    requires id in s.calls && t.calls == s.calls && t.log.moved == s.log.moved[id := effect]
    ensures Abstract(t).calls == Abstract(s).calls[id := Applied(s.calls[id].op, s.calls[id].data, effect)]
  {
    AbstractUpdate(s, t, id, Applied(s.calls[id].op, s.calls[id].data, effect));
  }

  lemma TransferIsApply(s: State, t: State, id: nat, effect: Effect)
    requires id in s.calls && id !in s.log.moved && t.calls == s.calls && t.log.moved == s.log.moved[id := effect]
    requires var c := s.calls[id];
      && t.disk == (if c.op.write then Splice(s.disk, Target(c.op), effect.bytes) else s.disk)
      && (effect.status == 0 ==>
            && Target(c.op) + c.op.size <= |s.disk|
            && effect.bytes == if c.op.write then c.data else Slice(s.disk, Target(c.op), c.op.size))
    ensures DiskStep(Abstract(s), Apply(id, effect), Abstract(t))
  {
    hide Splice, Slice, Abstract;
    TransferUpdate(s, t, id, effect);
    AbstractBytes(s);
    AbstractBytes(t);
  }

  lemma TransferMeans(s: State, step: Step)
    requires Inv(s) && Can(s, step) && step.Transfer?
    ensures DiskStep(Abstract(s), Meaning(s, step), Abstract(Do(s, step)))
  {
    TransferStep(s, step);
    hide Inv, Splice, Slice, Abstract, DoTransfer, CanTransfer, DiskStep, Can, Do, Meaning;
    MeaningIs(s, step);
    EffectAt(s, step.head, step.status, step.bytes);
    TransferIsApply(s, Do(s, step), s.log.chains[step.head].call, Effect(step.status, step.bytes));
  }

  lemma MeaningIs(s: State, step: Step)
    requires Can(s, step) && step.Transfer?
    ensures step.head in s.log.chains ==>
      Meaning(s, step) == Apply(s.log.chains[step.head].call, Effect(step.status, step.bytes))
  {
    hide Can;
  }

  lemma TransferStep(s: State, step: Step)
    requires Can(s, step) && step.Transfer?
    ensures CanTransfer(s, step.head, step.status, step.bytes)
    ensures Do(s, step) == DoTransfer(s, step.head, step.status, step.bytes)
  {
  }

  lemma SilentMeans(s: State, step: Step)
    requires Can(s, step) && (step.Submit? || step.Ack? || step.Fetch? || step.Answer? || step.Push? || step.Other?)
    ensures Abstract(Do(s, step)) == Abstract(s)
  {
    hide Publish, AckOne, Walk, WellFormed, Slice;
    assert Abstract(Do(s, step)).calls == Abstract(s).calls;
  }

  /** Every step of driver, device and kernel is a step of the atomic disk, or none. */
  lemma StepMeans(s: State, step: Step)
    requires Inv(s) && Can(s, step)
    ensures DiskStep(Abstract(s), Meaning(s, step), Abstract(Do(s, step)))
  {
    hide Inv, DiskStep, Abstract;
    match step
    case Begin(op) => BeginMeans(s, op);
    case Claim(id) => ClaimMeans(s, id);
    case Finish(id) => FinishMeans(s, id);
    case Transfer(h, status, bytes) => TransferMeans(s, step);
    case _ => SilentMeans(s, step); SilentIs(Abstract(s));
  }

  lemma SilentIs(d: Disk)
    ensures DiskStep(d, Silent, d)
  {
  }

  /** Every run is a run of the atomic disk. */
  lemma RefinesDisk(trace: seq<State>, steps: seq<Step>, i: nat)
    requires Run(trace, steps) && i < |steps|
    ensures Can(trace[i], steps[i]) && DiskStep(Abstract(trace[i]), Meaning(trace[i], steps[i]), Abstract(trace[i + 1]))
  {
    AlwaysInv(trace, steps, i);
    assert Follows(trace, steps, i);
    hide Inv, DiskStep, Abstract;
    StepMeans(trace[i], steps[i]);
  }

  // ---------------------------------------------------------------- what one call sees

  /** At step `j` the device moved the data of call `id`. */
  ghost predicate MovesAt(trace: seq<State>, steps: seq<Step>, j: nat, id: nat, effect: Effect) {
    && j < |steps| && j < |trace| && steps[j].Transfer? && steps[j].head in trace[j].log.chains
    && trace[j].log.chains[steps[j].head].call == id && effect == Effect(steps[j].status, steps[j].bytes)
  }

  lemma MovedBy(s: State, step: Step, id: nat)
    requires Can(s, step) && id in Do(s, step).log.moved
    ensures (id in s.log.moved && Do(s, step).log.moved[id] == s.log.moved[id])
         || (step.Transfer? && step.head in s.log.chains && s.log.chains[step.head].call == id
             && Do(s, step).log.moved[id] == Effect(step.status, step.bytes))
  {
    hide Publish, AckOne, Walk, WellFormed, Slice, Splice, FirstFit, MarkRun, Freed;
  }

  lemma {:induction false} MovedSometime(trace: seq<State>, steps: seq<Step>, i: nat, id: nat) returns (j: nat)
    requires Run(trace, steps) && i < |trace| && id in trace[i].log.moved
    ensures j < i && MovesAt(trace, steps, j, id, trace[i].log.moved[id])
    decreases i
  {
    assert i != 0;
    assert Follows(trace, steps, i - 1);
    MovedBy(trace[i - 1], steps[i - 1], id);
    hide Do, Can;
    if MovesAt(trace, steps, i - 1, id, trace[i].log.moved[id]) {
      j := i - 1;
    } else {
      j := MovedSometime(trace, steps, i - 1, id);
    }
  }

  /** A call keeps its operation and its data for as long as it is in flight. */
  lemma {:induction false} CallKept(trace: seq<State>, steps: seq<Step>, i: nat, j: nat, id: nat)
    requires Run(trace, steps) && j <= i < |trace| && id in trace[j].calls && id in trace[i].calls
    ensures trace[i].calls[id].op == trace[j].calls[id].op && trace[i].calls[id].data == trace[j].calls[id].data
    decreases i - j
  {
    if j < i {
      assert Follows(trace, steps, j);
      hide Do, Can, Inv;
      AlwaysInv(trace, steps, j);
      Numbered(trace[j], id);
      OpKept(trace[j], steps[j], id);
      NeverBack(trace, steps, i, j + 1, id);
      CallKept(trace, steps, i, j + 1, id);
    }
  }

  lemma Numbered(s: State, id: nat)
    requires Inv(s) && id in s.calls
    ensures id < s.log.nextId
  {
    assert Paged(s, id);
  }

  lemma OpKept(s: State, step: Step, id: nat)
    requires Inv(s) && Can(s, step)
    ensures id in Do(s, step).calls && id in s.calls ==>
      Do(s, step).calls[id].op == s.calls[id].op && Do(s, step).calls[id].data == s.calls[id].data
    ensures id < s.log.nextId && id !in s.calls ==> id !in Do(s, step).calls
    ensures s.log.nextId <= Do(s, step).log.nextId
  {
    hide Inv, Can, Do;
    if step.Claim? {
      ClaimStep(s, step);
      hide DoClaim, CanClaim;
      ClaimKeepsOps(s, step.id, id);
    } else if step.Transfer? {
      TransferStep(s, step);
      TransferKeepsOps(s, step.head, step.status, step.bytes);
    } else {
      NextIdUnused(s);
      RestKeepsOps(s, step, id);
    }
  }

  lemma NextIdUnused(s: State)
    requires Inv(s)
    ensures s.log.nextId !in s.calls
  {
    assert s.log.nextId in s.calls ==> Paged(s, s.log.nextId);
  }

  lemma ClaimStep(s: State, step: Step)
    requires Can(s, step) && step.Claim?
    ensures CanClaim(s, step.id) && Do(s, step) == DoClaim(s, step.id)
  {
  }

  lemma TransferKeepsOps(s: State, h: nat, status: nat, bytes: seq<byte>)
    requires CanTransfer(s, h, status, bytes)
    ensures DoTransfer(s, h, status, bytes).calls == s.calls
    ensures DoTransfer(s, h, status, bytes).log.nextId == s.log.nextId
  {
    hide Visible, Slice, Splice;
  }

  lemma RestKeepsOps(s: State, step: Step, id: nat)
    requires Can(s, step) && !step.Claim? && !step.Transfer? && s.log.nextId !in s.calls
    ensures id in Do(s, step).calls && id in s.calls ==>
      Do(s, step).calls[id].op == s.calls[id].op && Do(s, step).calls[id].data == s.calls[id].data
    ensures id < s.log.nextId && id !in s.calls ==> id !in Do(s, step).calls
    ensures s.log.nextId <= Do(s, step).log.nextId
  {
    hide Publish, AckOne, Walk, WellFormed, Slice, Splice, FirstFit, MarkRun, Freed;
    hide DoClaim, DoTransfer, CanTransfer, Visible, Released, Disown;
  }

  lemma ClaimKeepsOps(s: State, c: nat, id: nat)
    requires CanClaim(s, c)
    ensures id in DoClaim(s, c).calls ==>
      id in s.calls && DoClaim(s, c).calls[id].op == s.calls[id].op && DoClaim(s, c).calls[id].data == s.calls[id].data
    ensures DoClaim(s, c).log.nextId == s.log.nextId
  {
    hide Freed, ThreeFree, TakeThree;
  }

  /** A call that has returned never comes back under its number. */
  lemma {:induction false} NeverBack(trace: seq<State>, steps: seq<Step>, i: nat, j: nat, id: nat)
    requires Run(trace, steps) && j <= i < |trace| && id < trace[j].log.nextId && id in trace[i].calls
    ensures id in trace[j].calls
    decreases i - j
  {
    if j < i {
      assert Follows(trace, steps, j);
      AlwaysInv(trace, steps, j);
      OpKept(trace[j], steps[j], id);
      hide Do, Can, Inv;
      NeverBack(trace, steps, i, j + 1, id);
    }
  }

  /** A call that answers true was carried out on the disk in one step of the device while it was in flight, in the
      sectors from the one its offset lies in. */
  lemma BlockOpMoved(trace: seq<State>, steps: seq<Step>, i: nat, id: nat) returns (j: nat)
    requires Run(trace, steps) && i < |steps| && steps[i] == Finish(id) && Can(trace[i], steps[i])
    requires Succeeded(trace[i], id)
    ensures j < i && id in trace[j].calls && id in trace[i].calls
    ensures var op := trace[i].calls[id].op;
      && Target(op) + op.size <= |trace[j].disk|
      && (!op.write ==>
            Buffer(trace[i], id) == Slice(trace[j].disk, Target(op), op.size) && trace[j + 1].disk == trace[j].disk)
      && (op.write ==> trace[j + 1].disk == Splice(trace[j].disk, Target(op), Buffer(trace[i], id)))
  {
    var s := trace[i];
    AlwaysInv(trace, steps, i);
    assert Paged(s, id) && Phased(s, id) && Buffered(s, id);
    assert id in s.log.moved && s.log.moved[id].status == 0;
    hide Inv, Can, Do;
    j := MovedSometime(trace, steps, i, id);
    AlwaysInv(trace, steps, j);
    assert Follows(trace, steps, j);
    var h, status, bytes := steps[j].head, steps[j].status, steps[j].bytes;
    TransferStep(trace[j], steps[j]);
    EffectAt(trace[j], h, status, bytes);
    CallKept(trace, steps, i, j, id);
  }

  /** A call that answers true was carried out on the disk in one step of the device while it was in flight: a read
      returns with its buffer holding the bytes the disk had at that moment, and a write put its buffer's bytes there.
      With an offset that is a multiple of 512 the place is the offset itself. */
  lemma BlockOpAtomic(trace: seq<State>, steps: seq<Step>, i: nat, id: nat) returns (j: nat)
    requires Run(trace, steps) && i < |steps| && steps[i] == Finish(id) && Can(trace[i], steps[i])
    requires Succeeded(trace[i], id)
    ensures j < i && id in trace[j].calls && id in trace[i].calls
    ensures var op := trace[i].calls[id].op; var at := op.offset / 512 * 512;
      && at + op.size <= |trace[j].disk| && (op.offset % 512 == 0 ==> at == op.offset)
      && (!op.write ==>
            Buffer(trace[i], id) == trace[j].disk[at..at + op.size] && trace[j + 1].disk == trace[j].disk)
      && (op.write ==> trace[j + 1].disk == Splice(trace[j].disk, at, Buffer(trace[i], id)))
  {
    hide Run, Can, Do, Succeeded, Buffer, Splice;
    j := BlockOpMoved(trace, steps, i, id);
  }
}
