/** One hart under the kernel: running code, traps with their dispatch, and context switches. */
module Machine {
  import opened Bits
  import opened PageFrame
  import opened TrapVector
  import opened ProcessTable

  /** Where mscratch points: the boot frame, or the frame of the process in a slot. */
  datatype FrameRef = Static | Slot(index: nat)

  datatype Kernel = Kernel(table: Table, boot: Frame, mscratch: FrameRef)

  predicate Frames(k: Kernel) {
    && TableOk(k.table) && |k.boot.regs| == REGS
    && (forall i: nat :: i < SLOTS && k.table.slots[i].Some? ==> |k.table.slots[i].value.frame.regs| == REGS)
  }

  predicate HasFrame(k: Kernel) {
    Frames(k) && (k.mscratch.Slot? ==> k.mscratch.index < SLOTS && k.table.slots[k.mscratch.index].Some?)
  }

  function FrameOf(k: Kernel): (f: Frame)
    requires HasFrame(k)
    ensures |f.regs| == REGS
  {
    if k.mscratch.Static? then k.boot else k.table.slots[k.mscratch.index].value.frame
  }

  function PutFrame(k: Kernel, f: Frame): (r: Kernel)
    requires HasFrame(k) && |f.regs| == REGS
    ensures HasFrame(r) && FrameOf(r) == f && r.mscratch == k.mscratch && r.table.current == k.table.current
  {
    if k.mscratch.Static? then k.(boot := f)
    else
      var i := k.mscratch.index;
      k.(table := k.table.(slots := k.table.slots[i := Some(k.table.slots[i].value.(frame := f))]))
  }

  // ---------------------------------------------------------------- the handler

  datatype Handled = Resume(k: Kernel, pc: nat) | Parked(k: Kernel) | Panic

  function Skip(pc: nat): nat { (pc + 4) % TWO64 }

  /** Ask the scheduler; mscratch follows its choice, and with no choice everything stays. */
  function Switch(k: Kernel, epc: nat): (r: Handled)
    requires HasFrame(k)
    ensures r.Resume? && HasFrame(r.k)
  {
    var (t, pick) := Schedule(k.table, epc);
    match pick
    case None => Resume(k.(table := t), epc)
    case Some(i) => Resume(k.(table := t, mscratch := Slot(i)), t.slots[i].value.pc)
  }

  const SYS_READ: nat := 63
  const SYS_EXIT: nat := 93

  /** The ecall dispatcher; `answer` is what a file read returns. */
  function Syscall(k: Kernel, epc: nat, answer: nat): (r: Handled)
    requires HasFrame(k)
    ensures r.Resume? ==> HasFrame(r.k)
  {
    var f := FrameOf(k);
    if f.regs[A0] == SYS_READ then Resume(PutFrame(k, f.(regs := f.regs[A0 := answer])), Skip(epc))
    else if f.regs[A0] == SYS_EXIT then
      var (t, pick) := Schedule(Exit(k.table).0, epc);
      match pick
      case None => Parked(k.(table := t))
      case Some(i) => Resume(k.(table := t, mscratch := Slot(i)), t.slots[i].value.pc)
    else Resume(k, Skip(epc))
  }

  predicate IsInterrupt(cause: nat) { cause / 0x8000_0000_0000_0000 % 2 == 1 }
  function CauseCode(cause: nat): nat { cause % 0x1000 }

  predicate IsTimer(cause: nat) { IsInterrupt(cause) && CauseCode(cause) == 7 }
  predicate IsEcall(cause: nat) { !IsInterrupt(cause) && CauseCode(cause) in {8, 9} }
  /** Access faults and page faults: the faulting instruction is stepped over. */
  predicate IsSkipped(cause: nat) { !IsInterrupt(cause) && CauseCode(cause) in {5, 7, 12, 13, 15} }
  /** Load and store access faults also leave a mark for the code that probes devices. */
  predicate IsAccessFault(cause: nat) { !IsInterrupt(cause) && CauseCode(cause) in {5, 7} }
  /** Software and external interrupts resume where they struck. */
  predicate IsService(cause: nat) { IsInterrupt(cause) && CauseCode(cause) in {3, 11} }

  function Dispatch(k: Kernel, cause: nat, epc: nat, answer: nat): (r: Handled)
    requires HasFrame(k)
    ensures r.Resume? ==> HasFrame(r.k)
  {
    if IsTimer(cause) then Switch(k, epc)
    else if IsService(cause) then Resume(k, epc)
    else if IsEcall(cause) then Syscall(k, epc, answer)
    else if IsSkipped(cause) then Resume(k, Skip(epc))
    else Panic
  }

  /** The dispatch in the numbers of the RISC-V Privileged Architecture and of the call interface: bit 63 of the cause
      word marks an interrupt, its low twelve bits name it, a0 is x10, and an instruction to step over has four
      bytes. */
  lemma DispatchTable(k: Kernel, cause: nat, epc: nat, answer: nat)
    requires HasFrame(k) && cause < 0x1_0000_0000_0000_0000
    ensures var async, code, call := cause >= 0x8000_0000_0000_0000, cause % 4096, FrameOf(k).regs[10];
      var next, r := (epc + 4) % 0x1_0000_0000_0000_0000, Dispatch(k, cause, epc, answer);
      && (r.Panic? <==> if async then code !in {3, 7, 11} else code !in {5, 7, 8, 9, 12, 13, 15})
      && (async && code == 7 ==> r == Switch(k, epc))
      && (async && code in {3, 11} ==> r == Resume(k, epc))
      && (!async && code in {5, 7, 12, 13, 15} ==> r == Resume(k, next))
      && (!async && code in {8, 9} && call == 63 ==>
            r == Resume(PutFrame(k, FrameOf(k).(regs := FrameOf(k).regs[10 := answer])), next))
      && (!async && code in {8, 9} && call == 93 ==>
            var (t, pick) := Schedule(Exit(k.table).0, epc);
            r == match pick
                 case None => Parked(k.(table := t))
                 case Some(i) => Resume(k.(table := t, mscratch := Slot(i)), t.slots[i].value.pc))
      && (!async && code in {8, 9} && call != 63 && call != 93 ==> r == Resume(k, next))
  {
    CauseWord(cause);
    hide Schedule, Switch, PutFrame;
  }

  lemma CauseWord(cause: nat)
    requires cause < 0x1_0000_0000_0000_0000
    ensures IsInterrupt(cause) <==> cause >= 0x8000_0000_0000_0000
  {
  }

  // ---------------------------------------------------------------- the machine

  /** `serial` numbers the processes ever spawned; `serials[i]` is that of the last one in slot `i`. */
  datatype State = State(k: Kernel, x: seq<nat>, pc: nat, parked: bool, nextPid: nat, pages: seq<bv8>, layout: Layout,
                         top: nat, serial: nat, serials: seq<nat>)

  datatype Step =
    | Own(x: seq<nat>, pc: nat)
    | Trap(cause: nat, answer: nat)
    | Spawn(entry: nat)
    | Other(pages: seq<bv8>)

  ghost predicate Shaped(s: State) {
    && Frames(s.k) && (!s.parked ==> HasFrame(s.k)) && |s.x| == REGS && s.x[0] == 0 && |s.serials| == SLOTS
    && WellFormed(s.pages)
  }

  /** The kernel as the handler finds it: the interrupted registers are in the frame. */
  ghost function Entered(s: State): (k: Kernel)
    requires Shaped(s) && !s.parked
    ensures HasFrame(k) && k.mscratch == s.k.mscratch && k.table.current == s.k.table.current
  {
    PutFrame(s.k, Save(FrameOf(s.k), s.x))
  }

  ghost predicate StackTaken(pages: seq<bv8>, stack: nat)
    requires WellFormed(pages)
  {
    stack in Runs(pages) && Runs(pages)[stack] == STACK_PAGES
  }

  ghost predicate Can(s: State, step: Step) {
    && Shaped(s)
    && match step
       case Own(x, pc) => !s.parked && |x| == REGS && x[0] == 0
       case Trap(cause, answer) => !s.parked && !Dispatch(Entered(s), cause, s.pc, answer).Panic?
       case Spawn(entry) => !s.parked
       case Other(pages) =>
         && |pages| == |s.pages| && WellFormed(pages)
         && forall i: nat :: i < SLOTS && s.k.table.slots[i].Some? ==> StackTaken(pages, s.k.table.slots[i].value.stack)
  }

  ghost function DoTrap(s: State, cause: nat, answer: nat): State
    requires Can(s, Trap(cause, answer))
  {
    match Dispatch(Entered(s), cause, s.pc, answer)
    case Resume(k, pc) => s.(k := k, x := Load(FrameOf(k)), pc := pc)
    case Parked(k) => s.(k := k, parked := true)
    case Panic => s
  }

  ghost function DoSpawn(s: State, entry: nat): State
    requires Shaped(s)
  {
    match FirstFit(s.pages, STACK_PAGES, 0)
    case None => s
    case Some(stack) =>
      var t := s.(pages := MarkRun(s.pages, stack, STACK_PAGES), nextPid := (s.nextPid + 1) % PIDS,
                  serial := s.serial + 1);
      match FirstEmpty(s.k.table.slots, 0)
      case None => t
      case Some(i) =>
        var p := NewProcess(s.layout, stack, entry, s.top, s.nextPid);
        t.(k := s.k.(table := s.k.table.(slots := s.k.table.slots[i := Some(p)])), serials := s.serials[i := s.serial])
  }

  ghost function Do(s: State, step: Step): State
    requires Can(s, step)
  {
    match step
    case Own(x, pc) => s.(x := x, pc := pc)
    case Trap(cause, answer) => DoTrap(s, cause, answer)
    case Spawn(entry) => DoSpawn(s, entry)
    case Other(pages) => s.(pages := pages)
  }

  /** The trap vector is installed, the table is empty, the boot code runs. */
  ghost predicate Start(s: State) {
    && Shaped(s) && !s.parked && s.k.mscratch == Static && s.k.table.current == None && s.nextPid == 1 && s.serial == 0
    && s.k.boot.trapStack == s.top
    && forall i: nat :: i < SLOTS ==> s.k.table.slots[i] == None
  }

  ghost predicate Run(trace: seq<State>, steps: seq<Step>) {
    && |trace| == |steps| + 1 && Start(trace[0])
    && forall i :: 0 <= i < |steps| ==> Follows(trace, steps, i)
  }

  ghost predicate Follows(trace: seq<State>, steps: seq<Step>, i: nat)
    requires i < |steps| && |trace| == |steps| + 1
  {
    Can(trace[i], steps[i]) && trace[i + 1] == Do(trace[i], steps[i])
  }
}
