/** What holds over every run of the machine: the scheduler's invariant, and contexts that no other step disturbs. */
module Scheduler {
  import opened PageFrame
  import opened TrapVector
  import opened ProcessTable
  import opened Machine

  // ---------------------------------------------------------------- the invariant

  /** mscratch follows the running process, or stays at the boot frame while there is none. */
  ghost predicate Pointed(s: State)
    requires Shaped(s)
  {
    match s.k.table.current
    case Some(i) => !s.parked && Runnable(s.k.table.slots, i) && s.k.mscratch == Slot(i)
    case None => s.parked || s.k.mscratch == Static
  }

  /** The process in slot `i` runs on a taken stack, traps to the shared trap stack, and has the number its serial
      gives. */
  ghost predicate Sound(s: State, i: nat)
    requires Shaped(s) && i < SLOTS && s.k.table.slots[i].Some?
  {
    var p := s.k.table.slots[i].value;
    && p.state.Running? && p.frame.trapStack == s.top && StackTaken(s.pages, p.stack)
    && s.serials[i] < s.serial && p.pid == (1 + s.serials[i]) % PIDS
  }

  ghost predicate Different(s: State, i: nat, j: nat)
    requires Shaped(s) && i < SLOTS && j < SLOTS && s.k.table.slots[i].Some? && s.k.table.slots[j].Some?
  {
    s.serials[i] != s.serials[j] && s.k.table.slots[i].value.stack != s.k.table.slots[j].value.stack
  }

  ghost predicate Inv(s: State) {
    && Shaped(s) && Pointed(s) && s.k.boot.trapStack == s.top && s.nextPid == (1 + s.serial) % PIDS
    && (forall i: nat :: i < SLOTS && s.k.table.slots[i].Some? ==> Sound(s, i))
    && (forall i: nat, j: nat :: i < j < SLOTS && s.k.table.slots[i].Some? && s.k.table.slots[j].Some? ==>
          Different(s, i, j))
  }

  // ---------------------------------------------------------------- a trap, slot by slot

  /** A slot after a trap: as before, or emptied, or with only its saved registers and resume address changed. */
  ghost predicate Kept(a: Option<Process>, b: Option<Process>) {
    b.Some? ==> a.Some? && b.value == a.value.(frame := a.value.frame.(regs := b.value.frame.regs), pc := b.value.pc)
  }

  lemma EnteredSlots(s: State, i: nat)
    requires Shaped(s) && !s.parked && i < SLOTS
    ensures s.k.mscratch != Slot(i) ==> Entered(s).table.slots[i] == s.k.table.slots[i]
    ensures s.k.mscratch == Slot(i) ==>
      && s.k.table.slots[i].Some?
      && Entered(s).table.slots[i]
         == Some(s.k.table.slots[i].value.(frame := Save(s.k.table.slots[i].value.frame, s.x)))
    ensures Kept(s.k.table.slots[i], Entered(s).table.slots[i])
    ensures (Entered(s).table.slots[i].Some? <==> s.k.table.slots[i].Some?)
    ensures Runnable(Entered(s).table.slots, i) <==> Runnable(s.k.table.slots, i)
    ensures Entered(s).boot == if s.k.mscratch.Static? then Save(s.k.boot, s.x) else s.k.boot
  {
  }

  lemma ScheduleSlots(t: Table, epc: nat, i: nat)
    requires TableOk(t) && i < SLOTS
    ensures var u := Schedule(t, epc).0;
      && Kept(t.slots[i], u.slots[i]) && (u.slots[i].Some? <==> t.slots[i].Some?)
      && (t.current != Some(i) ==> u.slots[i] == t.slots[i])
      && (t.current == Some(i) && Runnable(t.slots, i) ==> u.slots[i] == Some(t.slots[i].value.(pc := epc)))
      && (Runnable(u.slots, i) <==> Runnable(t.slots, i))
  {
    hide Scan;
    StashIs(t, epc);
  }

  /** The ways a trap that does not panic can go. */
  ghost predicate Exits(s: State, step: Step) {
    step.Trap? && IsEcall(step.cause) && |s.x| == REGS && s.x[A0] == SYS_EXIT
  }

  ghost predicate Ticks(step: Step) {
    step.Trap? && IsTimer(step.cause)
  }

  lemma EnteredA0(s: State)
    requires Shaped(s) && !s.parked
    ensures FrameOf(Entered(s)).regs == [FrameOf(s.k).regs[0]] + s.x[1..]
    ensures FrameOf(Entered(s)).regs[A0] == s.x[A0]
    ensures Load(FrameOf(Entered(s))) == s.x
  {
    LoadSave(FrameOf(s.k), s.x);
  }

  lemma TickIs(s: State, cause: nat, answer: nat)
    requires Can(s, Trap(cause, answer)) && IsTimer(cause)
    ensures var t, (u, pick) := DoTrap(s, cause, answer), Schedule(Entered(s).table, s.pc);
      && HasFrame(t.k) && t.k.table == u && t.k.boot == Entered(s).boot && t.parked == s.parked
      && (pick.Some? ==>
            && t.k.mscratch == Slot(pick.value) && t.pc == u.slots[pick.value].value.pc
            && t.x == Load(u.slots[pick.value].value.frame))
      && (pick.None? ==> t.k.mscratch == s.k.mscratch && t.pc == s.pc && t.x == Load(FrameOf(t.k)))
      && t == s.(k := t.k, x := t.x, pc := t.pc)
  {
    hide Schedule, Load, Save, PutFrame;
  }

  lemma ExitIs(s: State, cause: nat, answer: nat)
    requires Can(s, Trap(cause, answer)) && Machine.IsEcall(cause) && s.x[A0] == SYS_EXIT
    ensures var t, (u, pick) := DoTrap(s, cause, answer), Schedule(Exit(Entered(s).table).0, s.pc);
      && t.k.table == u && t.k.boot == Entered(s).boot
      && (pick.Some? ==>
            && HasFrame(t.k) && !t.parked && t.k.mscratch == Slot(pick.value)
            && t.pc == u.slots[pick.value].value.pc && t.x == Load(u.slots[pick.value].value.frame))
      && (pick.None? ==> t.parked && t.k.mscratch == s.k.mscratch && t.x == s.x)
      && t == s.(k := t.k, x := t.x, pc := t.pc, parked := t.parked)
  {
    EnteredA0(s);
    hide Schedule, Load, Save, PutFrame, Exit;
  }

  /** Every other trap returns to the code it interrupted. */
  lemma ReturnIs(s: State, cause: nat, answer: nat)
    requires Can(s, Trap(cause, answer)) && !IsTimer(cause) && !(IsEcall(cause) && s.x[A0] == SYS_EXIT)
    ensures var t := DoTrap(s, cause, answer);
      && HasFrame(t.k) && t.k.table.current == s.k.table.current && t.k.mscratch == s.k.mscratch && !t.parked
      && t.x == (if IsEcall(cause) && s.x[A0] == SYS_READ then s.x[A0 := answer] else s.x)
      && t.pc == (if IsService(cause) then s.pc else Skip(s.pc))
      && t.x == Load(FrameOf(t.k))
      && t == s.(k := t.k, x := t.x, pc := t.pc)
  {
    EnteredA0(s);
    hide Schedule, Save;
    var f := FrameOf(Entered(s));
    assert Load(f.(regs := f.regs[A0 := answer])) == s.x[A0 := answer];
  }

  lemma ReturnSlots(s: State, cause: nat, answer: nat, i: nat)
    requires Can(s, Trap(cause, answer)) && !IsTimer(cause) && !(IsEcall(cause) && s.x[A0] == SYS_EXIT) && i < SLOTS
    ensures var t := DoTrap(s, cause, answer);
      && TableOk(t.k.table) && Kept(s.k.table.slots[i], t.k.table.slots[i])
      && (t.k.table.slots[i].Some? <==> s.k.table.slots[i].Some?)
      && (s.k.mscratch != Slot(i) ==> t.k.table.slots[i] == s.k.table.slots[i])
      && t.k.boot == s.k.boot.(regs := t.k.boot.regs)
  {
    EnteredA0(s);
    EnteredSlots(s, i);
    hide Schedule, Load;
  }

  // ---------------------------------------------------------------- every step keeps the invariant

  ghost predicate SameRest(s: State, t: State) {
    && t.pages == s.pages && t.layout == s.layout && t.top == s.top && t.serial == s.serial && t.serials == s.serials
    && t.nextPid == s.nextPid
    && t.k.boot == s.k.boot.(regs := t.k.boot.regs)
  }

  lemma KeptInv(s: State, t: State)
    requires Inv(s) && Shaped(t) && Pointed(t) && SameRest(s, t)
    requires forall i: nat :: i < SLOTS ==> Kept(s.k.table.slots[i], t.k.table.slots[i])
    ensures Inv(t)
  {
    hide Runs, WellFormed;
    forall i: nat | i < SLOTS && t.k.table.slots[i].Some? ensures Sound(t, i) {
      assert Kept(s.k.table.slots[i], t.k.table.slots[i]);
      assert Sound(s, i);
    }
    forall i: nat, j: nat | i < j < SLOTS && t.k.table.slots[i].Some? && t.k.table.slots[j].Some?
      ensures Different(t, i, j)
    {
      assert Kept(s.k.table.slots[i], t.k.table.slots[i]) && Kept(s.k.table.slots[j], t.k.table.slots[j]);
      assert Different(s, i, j);
    }
  }

  /** After a choice mscratch points at the chosen frame; with nothing to choose it still points at the boot frame. */
  lemma TickPointed(s: State, cause: nat, answer: nat)
    requires Inv(s) && Can(s, Trap(cause, answer)) && IsTimer(cause)
    ensures Shaped(DoTrap(s, cause, answer)) && Pointed(DoTrap(s, cause, answer))
  {
    var t := DoTrap(s, cause, answer);
    TickIs(s, cause, answer);
    hide Dispatch, DoTrap, Runs, WellFormed, Scan, Stash;
    assert s.k.table.current.Some? ==> Runnable(s.k.table.slots, s.k.table.current.value);
    if s.k.table.current.Some? {
      EnteredSlots(s, s.k.table.current.value);
    }
    if t.k.table.current.Some? {
      ScheduleSlots(Entered(s).table, s.pc, t.k.table.current.value);
    }
  }

  lemma TickKeeps(s: State, cause: nat, answer: nat)
    requires Inv(s) && Can(s, Trap(cause, answer)) && IsTimer(cause)
    ensures Inv(DoTrap(s, cause, answer))
  {
    var t := DoTrap(s, cause, answer);
    TickIs(s, cause, answer);
    hide Schedule, Dispatch, DoTrap, Runs, WellFormed;
    TickPointed(s, cause, answer);
    forall i: nat | i < SLOTS ensures Kept(s.k.table.slots[i], t.k.table.slots[i]) {
      EnteredSlots(s, i);
      ScheduleSlots(Entered(s).table, s.pc, i);
    }
    EnteredSlots(s, 0);
    KeptInv(s, t);
  }

  /** The exiting process's slot is empty, and no other slot has changed. */
  lemma ExitSlots(s: State, i: nat)
    requires Inv(s) && !s.parked && i < SLOTS
    ensures var u := Schedule(Exit(Entered(s).table).0, s.pc).0;
      && (s.k.table.current == Some(i) ==> u.slots[i] == None)
      && (s.k.table.current != Some(i) ==> u.slots[i] == s.k.table.slots[i])
  {
    EnteredSlots(s, i);
    if s.k.table.current.Some? {
      EnteredSlots(s, s.k.table.current.value);
    }
    hide Scan;
    ScheduleSlots(Exit(Entered(s).table).0, s.pc, i);
  }

  lemma ExitKeeps(s: State, cause: nat, answer: nat)
    requires Inv(s) && Can(s, Trap(cause, answer)) && IsEcall(cause) && s.x[A0] == SYS_EXIT
    ensures Inv(DoTrap(s, cause, answer))
  {
    hide Dispatch, DoTrap, Runs, WellFormed, Scan, Stash;
    var t := DoTrap(s, cause, answer);
    ExitIs(s, cause, answer);
    forall i: nat | i < SLOTS ensures Kept(s.k.table.slots[i], t.k.table.slots[i]) {
      ExitSlots(s, i);
    }
    EnteredSlots(s, 0);
    assert Shaped(t) && Pointed(t);
    hide *;
    KeptInv(s, t);
  }

  lemma ReturnKeeps(s: State, cause: nat, answer: nat)
    requires Inv(s) && Can(s, Trap(cause, answer)) && !IsTimer(cause) && !(IsEcall(cause) && s.x[A0] == SYS_EXIT)
    ensures Inv(DoTrap(s, cause, answer))
  {
    var t := DoTrap(s, cause, answer);
    ReturnIs(s, cause, answer);
    hide Dispatch, DoTrap, Runs, WellFormed;
    forall i: nat | i < SLOTS ensures Kept(s.k.table.slots[i], t.k.table.slots[i]) {
      ReturnSlots(s, cause, answer, i);
    }
    ReturnSlots(s, cause, answer, 0);
    if t.k.table.current.Some? {
      ReturnSlots(s, cause, answer, t.k.table.current.value);
    }
    KeptInv(s, t);
  }

  /** Another run in the page table leaves every stack taken. */
  lemma StackStays(pages: seq<bv8>, s: nat, stack: nat)
    requires WellFormed(pages) && FreeWindow(pages, s, STACK_PAGES)
    ensures WellFormed(MarkRun(pages, s, STACK_PAGES)) && StackTaken(MarkRun(pages, s, STACK_PAGES), s)
    ensures s !in Runs(pages)
    ensures StackTaken(pages, stack) ==> StackTaken(MarkRun(pages, s, STACK_PAGES), stack)
  {
    hide WellFormed, MarkRun;
    MarkRunAddsRun(pages, s, STACK_PAGES);
    FreeNotStart(pages, s);
  }

  lemma FreeNotStart(pages: seq<bv8>, s: nat)
    requires WellFormed(pages) && FreeWindow(pages, s, STACK_PAGES)
    ensures s !in Runs(pages)
  {
    FreeWindowZero(pages, s, STACK_PAGES);
  }

  ghost predicate Grew(s: State, entry: nat, stack: nat, t: State) {
    && Shaped(s) && WellFormed(t.pages) && StackTaken(t.pages, stack) && stack !in Runs(s.pages)
    && (forall i: nat :: i < SLOTS && s.k.table.slots[i].Some? ==> StackTaken(t.pages, s.k.table.slots[i].value.stack))
    && var u := s.(pages := t.pages, nextPid := (s.nextPid + 1) % PIDS, serial := s.serial + 1);
    match FirstEmpty(s.k.table.slots, 0)
    case None => t == u
    case Some(i) =>
      var p := NewProcess(s.layout, stack, entry, s.top, s.nextPid);
      t == u.(k := s.k.(table := s.k.table.(slots := s.k.table.slots[i := Some(p)])),
              serials := s.serials[i := s.serial])
  }

  lemma SpawnIs(s: State, entry: nat)
    requires Inv(s) && FirstFit(s.pages, STACK_PAGES, 0).Some?
    ensures Grew(s, entry, FirstFit(s.pages, STACK_PAGES, 0).value, DoSpawn(s, entry))
  {
    var stack := FirstFit(s.pages, STACK_PAGES, 0).value;
    hide FirstFit, MarkRun, WellFormed, Runs, FirstEmpty;
    StackStays(s.pages, stack, 0);
    forall i: nat | i < SLOTS && s.k.table.slots[i].Some?
      ensures StackTaken(MarkRun(s.pages, stack, STACK_PAGES), s.k.table.slots[i].value.stack)
    {
      assert Sound(s, i);
      StackStays(s.pages, stack, s.k.table.slots[i].value.stack);
    }
  }

  lemma GrewInv(s: State, entry: nat, stack: nat, t: State)
    requires Inv(s) && !s.parked && Grew(s, entry, stack, t)
    ensures Inv(t)
  {
    hide WellFormed, Runs, Sound, Different, Grew, Pointed;
    GrewShape(s, entry, stack, t);
    forall i: nat | i < SLOTS && t.k.table.slots[i].Some? ensures Sound(t, i) {
      GrewSound(s, entry, stack, t, i);
    }
    forall i: nat, j: nat | i < j < SLOTS && t.k.table.slots[i].Some? && t.k.table.slots[j].Some?
      ensures Different(t, i, j)
    {
      GrewDifferent(s, entry, stack, t, i, j);
    }
  }

  lemma GrewShape(s: State, entry: nat, stack: nat, t: State)
    requires Inv(s) && !s.parked && Grew(s, entry, stack, t)
    ensures Shaped(t) && Pointed(t) && t.k.boot.trapStack == t.top && t.nextPid == (1 + t.serial) % PIDS
  {
    hide WellFormed, Runs, Sound, Different;
  }

  lemma GrewSound(s: State, entry: nat, stack: nat, t: State, i: nat)
    requires Inv(s) && Grew(s, entry, stack, t) && Shaped(t) && i < SLOTS && t.k.table.slots[i].Some?
    ensures Sound(t, i)
  {
    hide WellFormed, Runs, Different, Pointed;
    assert s.k.table.slots[i].Some? ==> Sound(s, i);
  }

  lemma GrewDifferent(s: State, entry: nat, stack: nat, t: State, i: nat, j: nat)
    requires Inv(s) && Grew(s, entry, stack, t) && Shaped(t) && i < j < SLOTS
    requires t.k.table.slots[i].Some? && t.k.table.slots[j].Some?
    ensures Different(t, i, j)
  {
    hide WellFormed, Runs, Pointed;
    assert s.k.table.slots[i].Some? ==> Sound(s, i);
    assert s.k.table.slots[j].Some? ==> Sound(s, j);
    assert s.k.table.slots[i].Some? && s.k.table.slots[j].Some? ==> Different(s, i, j);
  }

  lemma StepKeeps(s: State, step: Step)
    requires Inv(s) && Can(s, step)
    ensures Inv(Do(s, step))
  {
    match step
    case Own(x, pc) => KeptInv(s, Do(s, step));
    case Trap(cause, answer) =>
      hide Inv, DoTrap;
      if IsTimer(cause) {
        TickKeeps(s, cause, answer);
      } else if IsEcall(cause) && s.x[A0] == SYS_EXIT {
        ExitKeeps(s, cause, answer);
      } else {
        ReturnKeeps(s, cause, answer);
      }
    case Spawn(entry) =>
      if FirstFit(s.pages, STACK_PAGES, 0).Some? {
        hide Inv, DoSpawn, FirstFit;
        SpawnIs(s, entry);
        GrewInv(s, entry, FirstFit(s.pages, STACK_PAGES, 0).value, DoSpawn(s, entry));
      }
    case Other(pages) => OtherKeeps(s, pages);
  }

  lemma OtherKeeps(s: State, pages: seq<bv8>)
    requires Inv(s) && Can(s, Other(pages))
    ensures Inv(s.(pages := pages))
  {
    var t := s.(pages := pages);
    hide WellFormed, Runs;
    forall i: nat | i < SLOTS && t.k.table.slots[i].Some? ensures Sound(t, i) {
      assert Sound(s, i);
    }
    forall i: nat, j: nat | i < j < SLOTS && t.k.table.slots[i].Some? && t.k.table.slots[j].Some?
      ensures Different(t, i, j)
    {
      assert Different(s, i, j);
    }
  }

  /** The invariant holds in every state of every run. */
  lemma {:induction false} AlwaysInv(trace: seq<State>, steps: seq<Step>, i: nat)
    requires Run(trace, steps) && i < |trace|
    ensures Inv(trace[i])
    decreases i
  {
    if i > 0 {
      AlwaysInv(trace, steps, i - 1);
      assert Follows(trace, steps, i - 1);
      hide Inv, Do, Can;
      StepKeeps(trace[i - 1], steps[i - 1]);
    }
  }
}
