/** What the file system may rely on: a successful block read delivers the block of the disk. */
module DiskBlocks {
  import opened PageFrame
  import opened Virtqueue
  import opened VirtioSystem
  import opened VirtioInv
  import opened VirtioKeeps
  import opened VirtioCalls
  import opened VirtioDisk
  import Minix3

  /** No call of the run writes. */
  ghost predicate OnlyReads(steps: seq<Step>) {
    forall i :: 0 <= i < |steps| && steps[i].Begin? ==> !steps[i].op.write
  }

  ghost predicate Readers(s: State) {
    forall id: nat :: id in s.calls ==> !s.calls[id].op.write
  }

  lemma StepKeepsReaders(s: State, step: Step)
    requires Inv(s) && Can(s, step) && Readers(s) && (step.Begin? ==> !step.op.write)
    ensures Readers(Do(s, step))
  {
    var t := Do(s, step);
    forall id: nat | id in t.calls ensures !t.calls[id].op.write {
      OpKept(s, step, id);
      if id !in s.calls {
        OnlyBeginAdds(s, step, id);
      }
    }
  }

  lemma OnlyBeginAdds(s: State, step: Step, id: nat)
    requires Can(s, step) && id in Do(s, step).calls && id !in s.calls
    ensures step.Begin? && Do(s, step).calls[id].op == step.op
  {
    hide Publish, AckOne, Walk, WellFormed, Slice, Splice, FirstFit, MarkRun, Freed, Visible, Released, Disown;
  }

  /** Reads leave the disk alone. */
  lemma StepKeepsDisk(s: State, step: Step)
    requires Inv(s) && Can(s, step) && Readers(s)
    ensures Do(s, step).disk == s.disk
  {
    if step.Transfer? {
      TransferStep(s, step);
      hide Can, Do, Inv, DoTransfer, CanTransfer, Splice, Slice;
      EffectAt(s, step.head, step.status, step.bytes);
    } else {
      hide Inv, Publish, AckOne, Walk, WellFormed, Slice, FirstFit, MarkRun, Freed, Visible, DoTransfer, CanTransfer;
    }
  }

  lemma {:induction false} DiskFixed(trace: seq<State>, steps: seq<Step>, i: nat)
    requires Run(trace, steps) && OnlyReads(steps) && i < |trace|
    ensures Readers(trace[i]) && trace[i].disk == trace[0].disk
    decreases i
  {
    hide Inv, Can, Do;
    if i > 0 {
      assert Follows(trace, steps, i - 1);
      assert steps[i - 1].Begin? ==> !steps[i - 1].op.write;
      hide Readers, Run, OnlyReads;
      DiskFixed(trace, steps, i - 1);
      AlwaysInv(trace, steps, i - 1);
      StepKeepsReaders(trace[i - 1], steps[i - 1]);
      StepKeepsDisk(trace[i - 1], steps[i - 1]);
    }
  }

  /** The blocks of the file system lie on the disk one after the other. */
  ghost predicate Holds(bytes: seq<byte>, disk: Minix3.Disk) {
    forall z: nat :: 1024 * z + 1024 <= |bytes| ==> bytes[1024 * z..1024 * z + 1024] == disk(z)
  }

  lemma HeldBlock(bytes: seq<byte>, disk: Minix3.Disk, z: nat)
    requires Holds(bytes, disk) && 1024 * z + 1024 <= |bytes|
    ensures bytes[1024 * z..1024 * z + 1024] == disk(z)
  {
  }

  /** Blocks begin at sector boundaries. */
  lemma BlockAligned(z: nat)
    ensures 1024 * z % 512 == 0
  {
    assert 1024 * z == (2 * z) * 512;
  }

  /** In every run of reads, under any interleaving, a read from a multiple of 512 that answers true leaves the bytes of
      the disk at its offset in the caller's buffer. */
  lemma ReadDelivers(trace: seq<State>, steps: seq<Step>, i: nat, id: nat)
    requires Run(trace, steps) && OnlyReads(steps)
    requires i < |steps| && steps[i] == Finish(id) && Can(trace[i], steps[i]) && Succeeded(trace[i], id)
    requires trace[i].calls[id].op.offset % 512 == 0
    ensures var op := trace[i].calls[id].op;
      op.offset + op.size <= |trace[0].disk| && Buffer(trace[i], id) == trace[0].disk[op.offset..op.offset + op.size]
  {
    assert |trace| == |steps| + 1;
    hide Can, Do, Run, OnlyReads, Splice, Buffer, Succeeded;
    DiskFixed(trace, steps, i);
    var j := BlockOpAtomic(trace, steps, i, id);
    DiskFixed(trace, steps, j);
  }

  /** In every run of reads, under any interleaving, a read of one block that answers true leaves that block of the
      disk in the caller's buffer. */
  lemma BlockReadDelivers(trace: seq<State>, steps: seq<Step>, i: nat, id: nat, z: nat, disk: Minix3.Disk)
    requires Run(trace, steps) && OnlyReads(steps) && Holds(trace[0].disk, disk)
    requires i < |steps| && steps[i] == Finish(id) && Can(trace[i], steps[i]) && Succeeded(trace[i], id)
    requires trace[i].calls[id].op.offset == 1024 * z && trace[i].calls[id].op.size == 1024
    ensures Buffer(trace[i], id) == disk(z)
  {
    assert |trace| == |steps| + 1;
    hide Can, Do, Run, OnlyReads, Holds, Buffer, Succeeded;
    BlockAligned(z);
    ReadDelivers(trace, steps, i, id);
    HeldBlock(trace[0].disk, disk, z);
  }

  // ---------------------------------------------------------------- such runs exist

  lemma Extend(trace: seq<State>, steps: seq<Step>, step: Step)
    requires Run(trace, steps) && Can(trace[|trace| - 1], step)
    ensures Run(trace + [Do(trace[|trace| - 1], step)], steps + [step])
  {
    var t, u := trace + [Do(trace[|trace| - 1], step)], steps + [step];
    hide Can, Do, Start;
    forall i | 0 <= i < |u| ensures Follows(t, u, i) {
      assert i < |steps| ==> Follows(trace, steps, i);
    }
  }

  /** Up to the publication of a first request. */
  lemma FirstRequest(s: State, op: Io) returns (trace: seq<State>, steps: seq<Step>)
    requires Start(s) && CanBegin(s, op)
    ensures Run(trace, steps) && trace[0] == s && steps == [Begin(op), Claim(0), Submit(0)]
    ensures var t := trace[|trace| - 1];
      && t.dev == s.dev && t.disk == s.disk && t.mem == s.mem && t.log.submitted == [0] && t.log.taken == 0
      && 0 in t.calls && t.calls[0].op == op && t.calls[0].phase == Waiting(0) && 0 in t.log.chains
      && t.log.chains[0].call == 0
      && |t.q.avail| == RING && t.q.avail[0] == 0 && t.q.availIdx == 1 && t.q.usedIdx == t.q.ack == 0
      && t.log.returned == [] && t.log.acked == 0
  {
    hide FirstFit, MarkRun, WellFormed;
    LowestUnique(s.q.free, 0, 1, 2);
    hide ThreeFree;
    trace, steps := [s], [];
    Extend(trace, steps, Begin(op));
    trace, steps := trace + [DoBegin(s, op)], steps + [Begin(op)];
    var b := DoBegin(s, op);
    Extend(trace, steps, Claim(0));
    var c := DoClaim(b, 0);
    trace, steps := trace + [c], steps + [Claim(0)];
    Extend(trace, steps, Submit(0));
    trace, steps := trace + [DoSubmit(c, 0)], steps + [Submit(0)];
  }

  /** The bytes a faultless device moves. */
  ghost function Moves(s: State, op: Io): seq<byte> {
    if op.write then Slice(s.mem, op.buf, op.size) else Slice(s.disk, Target(op), op.size)
  }

  lemma CanMove(s: State, op: Io)
    requires Inv(s) && 0 in s.dev.jobs && s.dev.jobs[0].Fetched? && 0 in s.log.chains && s.log.chains[0].op == op
    requires op.buf + op.size <= |s.mem| && Target(op) + op.size <= |s.disk|
    ensures CanTransfer(s, 0, 0, Moves(s, op))
  {
    hide Inv;
    DeviceSees(s, 0);
  }

  lemma LastInv(trace: seq<State>, steps: seq<Step>)
    requires Run(trace, steps)
    ensures |trace| > 0 && Inv(trace[|trace| - 1])
  {
    AlwaysInv(trace, steps, |trace| - 1);
  }

  /** The first request is in the device's hands, at this stage. */
  ghost predicate InHand(t: State, op: Io, job: Job) {
    && 0 in t.dev.jobs && t.dev.jobs[0] == job && 0 in t.log.chains && t.log.chains[0].op == op
    && t.log.chains[0].call == 0
    && 0 in t.calls && t.calls[0].op == op
  }

  lemma FirstQueued(t: State)
    requires Inv(t) && 0 in t.log.chains && t.log.submitted == [0] && t.log.taken == 0 && t.log.chains[0].call == 0
    ensures CanFetch(t) && 0 in t.calls && t.log.chains[0].op == t.calls[0].op
  {
    hide Owners, Chains, Calls, Misc;
    assert QueuedAt(t, 0) && Live(t, 0);
  }

  lemma FetchFirst(t: State, op: Io)
    requires Inv(t) && 0 in t.log.chains && t.log.submitted == [0] && t.log.taken == 0 && t.log.chains[0].call == 0
    requires 0 in t.calls && t.calls[0].op == op
    ensures CanFetch(t) && InHand(DoFetch(t), op, Fetched) && DoFetch(t).mem == t.mem && DoFetch(t).disk == t.disk
  {
    hide Inv, Live, QueuedAt;
    FirstQueued(t);
    hide CanFetch;
    var h := FetchHead(t);
    FetchGives(t);
  }

  lemma FetchGives(t: State)
    requires CanFetch(t) && 0 == t.q.avail[t.dev.seen % RING] && 0 in t.log.chains
    ensures var u := DoFetch(t);
      && 0 in u.dev.jobs && u.dev.jobs[0] == Fetched && u.calls == t.calls && u.mem == t.mem && u.disk == t.disk
      && 0 in u.log.chains && u.log.chains[0] == t.log.chains[0].(place := Working)
  {
  }

  lemma MoveFirst(t: State, op: Io)
    requires Inv(t) && InHand(t, op, Fetched) && op.buf + op.size <= |t.mem| && Target(op) + op.size <= |t.disk|
    ensures Can(t, Transfer(0, 0, Moves(t, op))) && InHand(Do(t, Transfer(0, 0, Moves(t, op))), op, Moved(0))
  {
    hide Inv, DoTransfer, CanTransfer, Moves;
    CanMove(t, op);
    TransferIs(t, 0, 0, Moves(t, op));
  }

  lemma AnswerFirst(t: State, op: Io)
    requires Inv(t) && InHand(t, op, Moved(0))
    ensures Can(t, Answer(0)) && InHand(Do(t, Answer(0)), op, Answered)
    ensures CanFinish(Do(t, Answer(0)), 0) && Succeeded(Do(t, Answer(0)), 0)
  {
    hide Inv, Can, Do, Unanswered;
    AnswerFacts(t, op);
    AnswerStep(t);
    AnswerGives(t, op, Do(t, Answer(0)));
  }

  lemma AnswerStep(t: State)
    requires Inv(t) && 0 in t.log.chains && Unanswered(t, 0) && 0 in t.dev.jobs && t.dev.jobs[0].Moved?
    ensures Can(t, Answer(0)) && Answers(t, 0, Do(t, Answer(0)))
  {
    hide Inv, Unanswered, Visible, DoAnswer, Answers;
    DeviceSees(t, 0);
    AnswerIs(t, 0);
  }

  lemma AnswerGives(t: State, op: Io, u: State)
    requires Answers(t, 0, u) && InHand(t, op, Moved(0))
    requires t.calls[0].phase == Waiting(0) && t.calls[0].req == t.log.chains[0].req && t.log.chains[0].req in t.reqs
    ensures InHand(u, op, Answered) && CanFinish(u, 0) && Succeeded(u, 0)
  {
  }

  lemma AnswerFacts(t: State, op: Io)
    requires Inv(t) && InHand(t, op, Moved(0))
    ensures Unanswered(t, 0) && t.calls[0].phase == Waiting(0) && t.calls[0].req == t.log.chains[0].req
    ensures t.log.chains[0].req in t.reqs
  {
    assert Live(t, 0);
  }

  /** The model is not empty: from every fresh queue, a request that fits is carried out and its call can return
      successfully. */
  lemma Served(s: State, op: Io) returns (trace: seq<State>, steps: seq<Step>)
    requires Start(s) && CanBegin(s, op) && Target(op) + op.size <= |s.disk|
    ensures Run(trace, steps) && |steps| > 0 && trace[0] == s && steps[0] == Begin(op)
    ensures var t := trace[|trace| - 1]; CanFinish(t, 0) && Succeeded(t, 0) && t.calls[0].op == op
  {
    trace, steps := FirstRequest(s, op);
    assert op.buf + op.size <= |s.mem|;
    hide *;
    trace, steps := AddFetch(trace, steps, op);
    trace, steps := AddMove(trace, steps, op);
    trace, steps := AddAnswer(trace, steps, op);
  }

  lemma AddFetch(trace: seq<State>, steps: seq<Step>, op: Io) returns (trace1: seq<State>, steps1: seq<Step>)
    requires Run(trace, steps) && |steps| > 0
    requires var t := trace[|trace| - 1];
      && 0 in t.log.chains && t.log.submitted == [0] && t.log.taken == 0 && t.log.chains[0].call == 0 && 0 in t.calls
      && t.calls[0].op == op
    ensures Run(trace1, steps1) && |steps1| > 0 && trace1[0] == trace[0] && steps1[0] == steps[0]
    ensures var t, u := trace[|trace| - 1], trace1[|trace1| - 1];
      InHand(u, op, Fetched) && u.mem == t.mem && u.disk == t.disk
  {
    hide Inv, InHand;
    LastInv(trace, steps);
    FetchFirst(trace[|trace| - 1], op);
    Extend(trace, steps, Fetch);
    trace1, steps1 := trace + [DoFetch(trace[|trace| - 1])], steps + [Fetch];
  }

  lemma AddMove(trace: seq<State>, steps: seq<Step>, op: Io) returns (trace1: seq<State>, steps1: seq<Step>)
    requires Run(trace, steps) && |steps| > 0
    requires var t := trace[|trace| - 1];
      InHand(t, op, Fetched) && op.buf + op.size <= |t.mem| && Target(op) + op.size <= |t.disk|
    ensures Run(trace1, steps1) && |steps1| > 0 && trace1[0] == trace[0] && steps1[0] == steps[0]
    ensures InHand(trace1[|trace1| - 1], op, Moved(0))
  {
    var t := trace[|trace| - 1];
    hide Run, Inv, InHand, Can, Do, Moves;
    LastInv(trace, steps);
    MoveFirst(t, op);
    var step := Transfer(0, 0, Moves(t, op));
    Extend(trace, steps, step);
    trace1, steps1 := trace + [Do(t, step)], steps + [step];
  }

  lemma HandFacts(t: State, op: Io, job: Job)
    requires InHand(t, op, job)
    ensures 0 in t.dev.jobs && t.dev.jobs[0] == job && 0 in t.log.chains && t.log.chains[0].op == op && 0 in t.calls
    ensures t.calls[0].op == op
  {
  }

  lemma AddAnswer(trace: seq<State>, steps: seq<Step>, op: Io) returns (trace1: seq<State>, steps1: seq<Step>)
    requires Run(trace, steps) && |steps| > 0 && InHand(trace[|trace| - 1], op, Moved(0))
    ensures Run(trace1, steps1) && |steps1| > 0 && trace1[0] == trace[0] && steps1[0] == steps[0]
    ensures var t := trace1[|trace1| - 1]; CanFinish(t, 0) && Succeeded(t, 0) && t.calls[0].op == op
  {
    var t := trace[|trace| - 1];
    hide Run, Inv, InHand, Can, Do, Succeeded;
    LastInv(trace, steps);
    AnswerFirst(t, op);
    HandFacts(Do(t, Answer(0)), op, Answered);
    Extend(trace, steps, Answer(0));
    trace1, steps1 := trace + [Do(t, Answer(0))], steps + [Answer(0)];
  }
}
