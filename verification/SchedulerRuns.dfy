/** Context-switch transparency over whole runs: stacks, numbers, registers and resume addresses. */
module SchedulerRuns {
  import opened PageFrame
  import opened TrapVector
  import opened ProcessTable
  import opened Machine
  import opened Scheduler

  // ---------------------------------------------------------------- stacks and numbers

  /** Two processes never share a page of stack, and every page of a stack is taken. */
  lemma StacksApart(trace: seq<State>, steps: seq<Step>, n: nat, i: nat, j: nat)
    requires Run(trace, steps) && n < |trace| && i < j < SLOTS && |trace[n].k.table.slots| == SLOTS
    requires trace[n].k.table.slots[i].Some? && trace[n].k.table.slots[j].Some?
    ensures var a, b := trace[n].k.table.slots[i].value.stack, trace[n].k.table.slots[j].value.stack;
      && a + 2 <= |trace[n].pages| && IsTaken(trace[n].pages[a]) && IsTaken(trace[n].pages[a + 1])
      && (a + 2 <= b || b + 2 <= a)
  {
    var s := trace[n];
    AlwaysInv(trace, steps, n);
    assert Sound(s, i) && Sound(s, j) && Different(s, i, j);
    hide *;
    TwoStacks(s.pages, s.k.table.slots[i].value.stack, s.k.table.slots[j].value.stack);
  }

  lemma TwoStacks(pages: seq<bv8>, a: nat, b: nat)
    requires WellFormed(pages) && StackTaken(pages, a) && StackTaken(pages, b) && a != b
    ensures a + 2 <= |pages| && IsTaken(pages[a]) && IsTaken(pages[a + 1])
    ensures a + 2 <= b || b + 2 <= a
  {
    hide WellFormed, Runs, IsTaken;
    RunsPartition(pages);
    assert InRun(Runs(pages), a, a) && InRun(Runs(pages), a, a + 1);
  }

  /** As long as fewer than 65536 numbers have been handed out, live processes have distinct nonzero numbers. */
  lemma PidsApart(trace: seq<State>, steps: seq<Step>, n: nat, i: nat, j: nat)
    requires Run(trace, steps) && n < |trace| && trace[n].serial < 65536 && i < j < SLOTS
    requires |trace[n].k.table.slots| == SLOTS
    requires trace[n].k.table.slots[i].Some? && trace[n].k.table.slots[j].Some?
    ensures trace[n].k.table.slots[i].value.pid != 0 && trace[n].k.table.slots[j].value.pid != 0
    ensures trace[n].k.table.slots[i].value.pid != trace[n].k.table.slots[j].value.pid
  {
    AlwaysInv(trace, steps, n);
    assert Sound(trace[n], i) && Sound(trace[n], j) && Different(trace[n], i, j);
  }

  // ---------------------------------------------------------------- transparency

  /** The process with serial `u` lives in slot `i`. */
  ghost predicate Lives(s: State, i: nat, u: nat) {
    i < SLOTS && |s.k.table.slots| == |s.serials| == SLOTS && s.k.table.slots[i].Some? && s.serials[i] == u
  }

  datatype Context = Context(x: seq<nat>, pc: nat)

  /** Registers and pc of a process: on the hart if it is running, else as saved. */
  ghost function ContextOf(s: State, i: nat): Context
    requires Shaped(s) && i < SLOTS && s.k.table.slots[i].Some?
  {
    if s.k.table.current == Some(i) then Context(s.x, s.pc)
    else Context(Load(s.k.table.slots[i].value.frame), s.k.table.slots[i].value.pc)
  }

  /** The running process itself moves on: its own instructions, its system calls, the faults it takes. */
  ghost predicate Moves(s: State, step: Step, i: nat) {
    s.k.table.current == Some(i) && (step.Own? || (step.Trap? && (IsEcall(step.cause) || IsSkipped(step.cause))))
  }

  lemma TickTransparent(s: State, cause: nat, answer: nat, i: nat)
    requires Inv(s) && Can(s, Trap(cause, answer)) && IsTimer(cause) && Inv(DoTrap(s, cause, answer))
    requires i < SLOTS && s.k.table.slots[i].Some?
    ensures DoTrap(s, cause, answer).k.table.slots[i].Some?
    ensures ContextOf(DoTrap(s, cause, answer), i) == ContextOf(s, i)
  {
    var t := DoTrap(s, cause, answer);
    assert Sound(s, i);
    TickIs(s, cause, answer);
    EnteredSlots(s, i);
    assert s.k.table.current == Some(i) ==> s.k.mscratch == Slot(i);
    assert s.k.table.current != Some(i) ==> s.k.mscratch != Slot(i);
    LoadSave(s.k.table.slots[i].value.frame, s.x);
    hide Inv, Dispatch, DoTrap, Runs, WellFormed, Schedule, Save, Load;
    ScheduleSlots(Entered(s).table, s.pc, i);
    ScheduleCurrent(Entered(s).table, s.pc);
  }

  lemma ScheduleCurrent(t: Table, epc: nat)
    requires TableOk(t)
    ensures Schedule(t, epc).0.current == Schedule(t, epc).1
  {
  }

  /** When a process exits, every survivor keeps its registers and its resume address. */
  lemma ExitTransparent(s: State, cause: nat, answer: nat, i: nat)
    requires Inv(s) && Can(s, Trap(cause, answer)) && IsEcall(cause) && s.x[A0] == SYS_EXIT
    requires Inv(DoTrap(s, cause, answer))
    requires i < SLOTS && s.k.table.slots[i].Some?
    ensures s.k.table.current == Some(i) ==> DoTrap(s, cause, answer).k.table.slots[i].None?
    ensures s.k.table.current != Some(i) ==>
      && DoTrap(s, cause, answer).k.table.slots[i] == s.k.table.slots[i]
      && ContextOf(DoTrap(s, cause, answer), i) == ContextOf(s, i)
  {
    ExitIs(s, cause, answer);
    ExitSlots(s, i);
    hide Inv, Dispatch, DoTrap, Runs, WellFormed, Schedule, Load;
    ScheduleCurrent(Exit(Entered(s).table).0, s.pc);
  }

  lemma ReturnTransparent(s: State, cause: nat, answer: nat, i: nat)
    requires Inv(s) && Can(s, Trap(cause, answer)) && !IsTimer(cause) && !(IsEcall(cause) && s.x[A0] == SYS_EXIT)
    requires Inv(DoTrap(s, cause, answer)) && i < SLOTS && s.k.table.slots[i].Some?
    ensures var t := DoTrap(s, cause, answer);
      && t.k.table.slots[i].Some?
      && (s.k.table.current != Some(i) ==> ContextOf(t, i) == ContextOf(s, i))
      && (s.k.table.current == Some(i) ==>
            && ContextOf(t, i).x == (if IsEcall(cause) && s.x[A0] == SYS_READ then s.x[A0 := answer] else s.x)
            && ContextOf(t, i).pc == if IsService(cause) then s.pc else Skip(s.pc))
  {
    ReturnIs(s, cause, answer);
    ReturnSlots(s, cause, answer, i);
    hide Dispatch, DoTrap, Runs, WellFormed, Load, Save;
    assert s.k.table.current != Some(i) ==> s.k.mscratch != Slot(i);
  }

  /** Unless the process itself moves on, a step leaves its registers and pc alone, whether it keeps running, is
      preempted, stays preempted, or is resumed. */
  lemma StepTransparent(s: State, step: Step, i: nat, u: nat)
    requires Inv(s) && Can(s, step) && Lives(s, i, u) && Lives(Do(s, step), i, u) && !Moves(s, step, i)
    ensures Shaped(Do(s, step)) && ContextOf(Do(s, step), i) == ContextOf(s, i)
  {
    StepKeeps(s, step);
    assert Shaped(Do(s, step)) && Shaped(s);
    assert Sound(s, i);
    match step
    case Own(x, pc) =>
    case Trap(cause, answer) =>
      hide Inv, DoTrap;
      if IsTimer(cause) {
        TickTransparent(s, cause, answer, i);
      } else if IsEcall(cause) && s.x[A0] == SYS_EXIT {
        ExitTransparent(s, cause, answer, i);
      } else {
        ReturnTransparent(s, cause, answer, i);
        Causes(cause);
      }
    case Spawn(entry) => hide Inv, MarkRun, FirstFit; SpawnTransparent(s, entry, i, u);
    case Other(pages) =>
  }

  lemma Causes(cause: nat)
    ensures IsService(cause) ==> !IsSkipped(cause) && !IsEcall(cause)
  {
  }

  lemma SpawnTransparent(s: State, entry: nat, i: nat, u: nat)
    requires Shaped(s) && Lives(s, i, u)
    ensures Lives(DoSpawn(s, entry), i, u) && DoSpawn(s, entry).k.table.slots[i] == s.k.table.slots[i]
    ensures var t := DoSpawn(s, entry); t.k.table.current == s.k.table.current && t.x == s.x && t.pc == s.pc
  {
    hide MarkRun, FirstFit, WellFormed;
  }

  /** What a process sees of its own system call: only a0 may change, and only for a read; execution goes on behind
      the ecall. */
  lemma EcallReturns(s: State, step: Step, i: nat, u: nat)
    requires Inv(s) && Can(s, step) && Lives(s, i, u) && Lives(Do(s, step), i, u)
    requires s.k.table.current == Some(i)
    requires step.Trap? && step.cause < 0x8000_0000_0000_0000 && step.cause % 4096 in {8, 9}
    ensures Shaped(Do(s, step)) && ContextOf(Do(s, step), i).pc == (s.pc + 4) % 0x1_0000_0000_0000_0000
    ensures s.x[10] == 63 ==> ContextOf(Do(s, step), i).x == s.x[10 := step.answer]
    ensures s.x[10] != 63 ==> ContextOf(Do(s, step), i).x == s.x
  {
    hide DoTrap, Dispatch, IsSkipped, IsEcall, IsService, IsTimer, ContextOf;
    EcallCause(step.cause);
    ExitLeaves(s, step, i, u);
    StepKeeps(s, step);
    InvShape(s);
    InvShape(Do(s, step));
    hide Inv, Shaped;
    ReturnTransparent(s, step.cause, step.answer, i);
  }

  lemma InvShape(s: State)
    requires Inv(s)
    ensures Shaped(s) && |s.x| == REGS
  {
  }

  /** A process that is still there after its call has not exited. */
  lemma ExitLeaves(s: State, step: Step, i: nat, u: nat)
    requires Inv(s) && Can(s, step) && Lives(s, i, u) && Lives(Do(s, step), i, u)
    requires s.k.table.current == Some(i) && step.Trap? && IsEcall(step.cause)
    ensures s.x[A0] != SYS_EXIT
  {
    hide DoTrap, Dispatch, IsEcall;
    StepKeeps(s, step);
    assert Shaped(s);
    hide Inv;
    if s.x[A0] == SYS_EXIT {
      ExitTransparent(s, step.cause, step.answer, i);
    }
  }

  lemma EcallCause(cause: nat)
    requires cause < 0x8000_0000_0000_0000 && cause % 4096 in {8, 9}
    ensures IsEcall(cause) && !IsTimer(cause) && !IsService(cause)
  {
  }

  /** What a process sees of a fault that is stepped over: nothing but the missing instruction. */
  lemma FaultReturns(s: State, step: Step, i: nat, u: nat)
    requires Inv(s) && Can(s, step) && Lives(s, i, u) && s.k.table.current == Some(i)
    requires step.Trap? && step.cause < 0x8000_0000_0000_0000 && step.cause % 4096 in {5, 7, 12, 13, 15}
    ensures Lives(Do(s, step), i, u) && Shaped(Do(s, step))
    ensures ContextOf(Do(s, step), i) == Context(s.x, (s.pc + 4) % 0x1_0000_0000_0000_0000)
  {
    hide DoTrap, Dispatch, IsSkipped, IsEcall, IsService, IsTimer;
    StepKeeps(s, step);
    InvShape(s);
    FaultCause(step.cause);
    ReturnIs(s, step.cause, step.answer);
    hide Inv;
    ReturnTransparent(s, step.cause, step.answer, i);
  }

  lemma FaultCause(cause: nat)
    requires cause < 0x8000_0000_0000_0000 && cause % 4096 in {5, 7, 12, 13, 15}
    ensures !IsTimer(cause) && !IsEcall(cause) && !IsService(cause)
  {
  }

  lemma NotTimer(cause: nat)
    ensures IsEcall(cause) ==> !IsTimer(cause)
  {
  }

  ghost predicate LivesFrom(trace: seq<State>, a: nat, b: nat, i: nat, u: nat) {
    a <= b < |trace| && forall k: nat :: a <= k <= b ==> Lives(trace[k], i, u)
  }

  /** From state `a` to state `b` the process does not move on by itself. */
  ghost predicate Idle(trace: seq<State>, steps: seq<Step>, a: nat, b: nat, i: nat) {
    |trace| == |steps| + 1 && b < |trace| && forall k: nat :: a <= k < b ==> !Moves(trace[k], steps[k], i)
  }

  lemma At(trace: seq<State>, steps: seq<Step>, n: nat, i: nat, u: nat)
    requires Run(trace, steps) && n < |trace| && Lives(trace[n], i, u)
    ensures Inv(trace[n]) && Shaped(trace[n]) && i < SLOTS && trace[n].k.table.slots[i].Some?
    ensures n < |steps| ==> Can(trace[n], steps[n]) && trace[n + 1] == Do(trace[n], steps[n])
  {
    AlwaysInv(trace, steps, n);
    assert n < |steps| ==> Follows(trace, steps, n);
  }

  lemma Shorter(trace: seq<State>, steps: seq<Step>, a: nat, b: nat, i: nat, u: nat)
    requires LivesFrom(trace, a, b, i, u) && Idle(trace, steps, a, b, i)
    ensures Lives(trace[a], i, u) && Lives(trace[b], i, u)
    ensures a < b ==> LivesFrom(trace, a, b - 1, i, u) && Idle(trace, steps, a, b - 1, i)
    ensures a < b ==> Lives(trace[b - 1], i, u) && !Moves(trace[b - 1], steps[b - 1], i)
  {
  }

  ghost predicate SameContext(s: State, t: State, i: nat) {
    && Shaped(s) && Shaped(t) && i < SLOTS && s.k.table.slots[i].Some? && t.k.table.slots[i].Some?
    && ContextOf(t, i) == ContextOf(s, i)
  }

  lemma TransparentStep(trace: seq<State>, steps: seq<Step>, n: nat, i: nat, u: nat)
    requires Run(trace, steps) && n < |steps| && Lives(trace[n], i, u) && Lives(trace[n + 1], i, u)
    requires !Moves(trace[n], steps[n], i)
    ensures SameContext(trace[n], trace[n + 1], i)
  {
    At(trace, steps, n, i, u);
    At(trace, steps, n + 1, i, u);
    hide Run, Lives, Inv, Do, Can, Shaped;
    StepTransparent(trace[n], steps[n], i, u);
  }

  /** A process that is preempted and later resumed finds x1..x31 and pc as they were, however many other steps
      lie in between. */
  lemma {:induction false} Transparent(trace: seq<State>, steps: seq<Step>, a: nat, b: nat, i: nat, u: nat)
    requires Run(trace, steps) && LivesFrom(trace, a, b, i, u) && Idle(trace, steps, a, b, i)
    ensures SameContext(trace[a], trace[b], i)
    decreases b - a
  {
    assert a <= b < |trace| == |steps| + 1;
    hide Run, LivesFrom, Idle, Lives, Moves, ContextOf, Shaped;
    Shorter(trace, steps, a, b, i, u);
    if a < b {
      Transparent(trace, steps, a, b - 1, i, u);
      TransparentStep(trace, steps, b - 1, i, u);
    } else {
      At(trace, steps, a, i, u);
    }
  }

  /** In particular, a process preempted by the timer finds, when it next runs, the registers and the pc it had. */
  lemma PreemptedResumes(trace: seq<State>, steps: seq<Step>, a: nat, b: nat, i: nat, u: nat)
    requires Run(trace, steps) && a < b && LivesFrom(trace, a, b, i, u) && Ticks(steps[a])
    requires trace[a].k.table.current == Some(i) && trace[b].k.table.current == Some(i)
    requires forall k: nat :: a < k < b ==> trace[k].k.table.current != Some(i)
    ensures trace[b].x == trace[a].x && trace[b].pc == trace[a].pc
  {
    NotTimer(steps[a].cause);
    assert Idle(trace, steps, a, b, i) by { TimerMoves(trace[a], steps[a], i); }
    hide LivesFrom, Run, Idle;
    Transparent(trace, steps, a, b, i, u);
  }

  lemma TimerMoves(s: State, step: Step, i: nat)
    requires Ticks(step)
    ensures !Moves(s, step, i)
  {
  }

  // ---------------------------------------------------------------- a new process

  /** The process of that serial number is the one this spawn has put into slot `i`. */
  lemma SpawnedIn(s: State, entry: nat, i: nat)
    requires Inv(s) && Lives(DoSpawn(s, entry), i, s.serial)
    ensures FirstFit(s.pages, 2, 0).Some? && s.k.table.current != Some(i) && DoSpawn(s, entry).layout == s.layout
    ensures var p, stack := DoSpawn(s, entry).k.table.slots[i].value, FirstFit(s.pages, 2, 0).value;
      && p.pc == entry && p.stack == stack && |p.frame.regs| == 32
      && (forall r :: 0 <= r < 32 ==>
            p.frame.regs[r] == if r == 2 then s.layout.PageAddr(stack) + 8192 else 0)
  {
    hide MarkRun, FirstFit, WellFormed, Runs, Different;
    assert s.k.table.slots[i].Some? ==> Sound(s, i);
    assert s.k.table.current.Some? ==> Runnable(s.k.table.slots, s.k.table.current.value);
  }

  /** No step moves a stack or the layout. */
  lemma StackPut(s: State, step: Step, i: nat, u: nat)
    requires Inv(s) && Can(s, step) && Lives(s, i, u) && Lives(Do(s, step), i, u)
    ensures Do(s, step).layout == s.layout
    ensures Do(s, step).k.table.slots[i].value.stack == s.k.table.slots[i].value.stack
  {
    InvShape(s);
    hide MarkRun, FirstFit, WellFormed, Runs;
    match step
    case Own(x, pc) =>
    case Trap(cause, answer) => TrapStack(s, cause, answer, i);
    case Spawn(entry) => SpawnTransparent(s, entry, i, u);
    case Other(pages) =>
  }

  lemma TrapStack(s: State, cause: nat, answer: nat, i: nat)
    requires Inv(s) && Can(s, Trap(cause, answer)) && i < SLOTS && s.k.table.slots[i].Some?
    requires DoTrap(s, cause, answer).k.table.slots[i].Some?
    ensures DoTrap(s, cause, answer).layout == s.layout
    ensures DoTrap(s, cause, answer).k.table.slots[i].value.stack == s.k.table.slots[i].value.stack
  {
    hide DoTrap, Dispatch, IsTimer, IsEcall, Schedule, Runs, WellFormed;
    if IsTimer(cause) {
      TickIs(s, cause, answer);
      EnteredSlots(s, i);
      ScheduleSlots(Entered(s).table, s.pc, i);
    } else if IsEcall(cause) && s.x[A0] == SYS_EXIT {
      ExitIs(s, cause, answer);
      ExitSlots(s, i);
    } else {
      ReturnIs(s, cause, answer);
      ReturnSlots(s, cause, answer, i);
    }
  }

  lemma {:induction false} StackStaysPut(trace: seq<State>, steps: seq<Step>, a: nat, b: nat, i: nat, u: nat)
    requires Run(trace, steps) && LivesFrom(trace, a, b, i, u)
    ensures trace[b].layout == trace[a].layout
    ensures trace[b].k.table.slots[i].value.stack == trace[a].k.table.slots[i].value.stack
    decreases b - a
  {
    assert a <= b < |trace| == |steps| + 1;
    assert Lives(trace[a], i, u) && Lives(trace[b], i, u);
    if a < b {
      assert Lives(trace[b - 1], i, u) && LivesFrom(trace, a, b - 1, i, u);
      StackStaysPut(trace, steps, a, b - 1, i, u);
      hide Run, LivesFrom, Inv, Do, Can, Shaped;
      At(trace, steps, b - 1, i, u);
      StackPut(trace[b - 1], steps[b - 1], i, u);
    }
  }

  /** A process that a spawn has made first runs at the entry it was made for, with the stack pointer just past the last
      byte of its two pages of stack, the stack of `StacksApart`, and zero in every other register. */
  lemma SpawnedStarts(trace: seq<State>, steps: seq<Step>, a: nat, b: nat, i: nat, entry: nat)
    requires Run(trace, steps) && a < b < |trace| && steps[a] == Spawn(entry)
    requires LivesFrom(trace, a + 1, b, i, trace[a].serial)
    requires trace[b].k.table.current == Some(i) && forall k: nat :: a < k < b ==> trace[k].k.table.current != Some(i)
    ensures FirstFit(trace[a].pages, 2, 0) == Some(trace[b].k.table.slots[i].value.stack)
    ensures trace[b].pc == entry && |trace[b].x| == 32
    ensures trace[b].x[2] == trace[b].layout.PageAddr(trace[b].k.table.slots[i].value.stack) + 8192
    ensures forall r :: 0 <= r < 32 && r != 2 ==> trace[b].x[r] == 0
  {
    var u := trace[a].serial;
    assert |trace| == |steps| + 1 && Follows(trace, steps, a);
    assert Lives(trace[a + 1], i, u) && Lives(trace[b], i, u);
    AlwaysInv(trace, steps, a);
    assert trace[a + 1] == DoSpawn(trace[a], entry);
    assert Idle(trace, steps, a + 1, b, i);
    hide Run, LivesFrom, Idle, Inv, FirstFit, DoSpawn, MarkRun;
    SpawnedIn(trace[a], entry, i);
    SpawnCurrent(trace[a], entry);
    Transparent(trace, steps, a + 1, b, i, u);
    StackStaysPut(trace, steps, a + 1, b, i, u);
  }

  lemma SpawnCurrent(s: State, entry: nat)
    requires Shaped(s)
    ensures DoSpawn(s, entry).k.table.current == s.k.table.current
  {
    hide MarkRun, FirstFit, WellFormed;
  }
}
