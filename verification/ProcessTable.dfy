/** The process table: sixteen slots, the running one, and round-robin scheduling over them. */
module ProcessTable {
  import opened PageFrame
  import opened TrapVector
  import opened ZeroedPages

  const SLOTS: nat := 16
  const STACK_PAGES: nat := 2
  const PIDS: nat := 0x1_0000

  datatype Status = Running | Dead
  /** `stack` is the index of the first page of the stack. */
  datatype Process = Process(frame: Frame, stack: nat, pc: nat, pid: nat, state: Status)
  datatype Table = Table(slots: seq<Option<Process>>, current: Option<nat>)

  predicate TableOk(t: Table) {
    |t.slots| == SLOTS && (t.current.Some? ==> t.current.value < SLOTS)
  }

  predicate Runnable(slots: seq<Option<Process>>, i: nat) {
    i < |slots| && slots[i].Some? && slots[i].value.state.Running?
  }

  // ---------------------------------------------------------------- picking the next process

  /** How far slot `i` lies behind `start`, going round. */
  function Dist(start: nat, i: nat): (d: nat)
    ensures d < SLOTS
  {
    (i - start) % SLOTS
  }

  /** The runnable slot nearest to `start`, from distance `off` on. */
  function Scan(slots: seq<Option<Process>>, start: nat, off: nat): (r: Option<nat>)
    requires |slots| == SLOTS && start < SLOTS
    ensures r.Some? ==> Runnable(slots, r.value) && off <= Dist(start, r.value)
    ensures r.Some? ==>
      forall j: nat :: Runnable(slots, j) && off <= Dist(start, j) ==> Dist(start, r.value) <= Dist(start, j)
    ensures r.None? ==> forall j: nat :: Runnable(slots, j) ==> Dist(start, j) < off
    decreases SLOTS - off
  {
    if off >= SLOTS then None
    else
      var i := (start + off) % SLOTS;
      DistAt(start, off);
      (if Runnable(slots, i) then Some(i) else Scan(slots, start, off + 1))
  }

  lemma DistAt(start: nat, off: nat)
    requires start < SLOTS && off < SLOTS
    ensures Dist(start, (start + off) % SLOTS) == off
    ensures forall j: nat :: j < SLOTS && Dist(start, j) == off ==> j == (start + off) % SLOTS
  {
  }

  /** The saved resume address of the process that was running. */
  function Stash(t: Table, epc: nat): (r: Table)
    requires TableOk(t)
    ensures TableOk(r) && r.current == t.current
    ensures forall i: nat :: i < SLOTS && t.current != Some(i) ==> r.slots[i] == t.slots[i]
    ensures forall i: nat :: Runnable(r.slots, i) <==> Runnable(t.slots, i)
  {
    if t.current.Some? && Runnable(t.slots, t.current.value) then
      t.(slots := t.slots[t.current.value := Some(t.slots[t.current.value].value.(pc := epc))])
    else t
  }

  lemma StashIs(t: Table, epc: nat)
    requires TableOk(t)
    ensures t.current.Some? && Runnable(t.slots, t.current.value) ==>
      Stash(t, epc).slots == t.slots[t.current.value := Some(t.slots[t.current.value].value.(pc := epc))]
    ensures !(t.current.Some? && Runnable(t.slots, t.current.value)) ==> Stash(t, epc) == t
  {
  }

  lemma ScanStep(slots: seq<Option<Process>>, start: nat, off: nat)
    requires |slots| == SLOTS && start < SLOTS && off <= SLOTS
    ensures off == SLOTS ==> Scan(slots, start, off) == None
    ensures off < SLOTS && Runnable(slots, (start + off) % SLOTS) ==>
      Scan(slots, start, off) == Some((start + off) % SLOTS)
    ensures off < SLOTS && !Runnable(slots, (start + off) % SLOTS) ==>
      Scan(slots, start, off) == Scan(slots, start, off + 1)
  {
  }

  function StartOf(t: Table): (s: nat)
    requires TableOk(t)
    ensures s < SLOTS
  {
    if t.current.Some? then (t.current.value + 1) % SLOTS else 0
  }

  function Schedule(t: Table, epc: nat): (r: (Table, Option<nat>))
    requires TableOk(t)
    ensures TableOk(r.0) && r.0.current == r.1
    ensures r.0.slots == Stash(t, epc).slots
    ensures r.1.Some? ==> Runnable(t.slots, r.1.value)
    ensures r.1.Some? ==> forall j: nat :: Runnable(t.slots, j) ==> Dist(StartOf(t), r.1.value) <= Dist(StartOf(t), j)
    ensures r.1.None? ==> forall j: nat :: !Runnable(t.slots, j)
  {
    var u := Stash(t, epc);
    var pick := Scan(u.slots, StartOf(t), 0);
    (u.(current := pick), pick)
  }

  // ---------------------------------------------------------------- exit and spawn

  function Exit(t: Table): (r: (Table, Option<nat>))
    requires TableOk(t)
    ensures TableOk(r.0)
  {
    match t.current
    case None => (t, None)
    case Some(i) =>
      if t.slots[i].None? then (t, None)
      else (Table(t.slots[i := None], None), Some(t.slots[i].value.pid))
  }

  /** The lowest empty slot from `i` on. */
  function FirstEmpty(slots: seq<Option<Process>>, i: nat): (r: Option<nat>)
    ensures r.Some? ==>
      i <= r.value < |slots| && slots[r.value].None? && forall j :: i <= j < r.value ==> slots[j].Some?
    ensures r.None? ==> forall j :: i <= j < |slots| ==> slots[j].Some?
    decreases |slots| - i
  {
    if i >= |slots| then None else if slots[i].None? then Some(i) else FirstEmpty(slots, i + 1)
  }

  datatype SpawnResult = Spawned(pid: nat) | TableFull | OutOfMemory | BadAccess

  /** Registers all zero except the stack pointer. */
  function FreshRegs(sp: nat): (r: seq<nat>)
    ensures |r| == REGS && r[SP] == sp && forall i :: 0 <= i < REGS && i != SP ==> r[i] == 0
  {
    seq(REGS, i => if i == SP then sp else 0)
  }

  /** The process stands at its entry with an empty stack of two pages and zero in every other register. */
  function NewProcess(l: Layout, stack: nat, entry: nat, top: nat, pid: nat): (p: Process)
    ensures p.pc == entry && p.stack == stack && p.pid == pid && p.state == Running && p.frame.trapStack == top
    ensures |p.frame.regs| == 32 && p.frame.regs[2] == l.PageAddr(stack) + 8192
    ensures forall r :: 0 <= r < 32 && r != 2 ==> p.frame.regs[r] == 0
  {
    Process(Frame(FreshRegs(l.PageAddr(stack + STACK_PAGES)), seq(REGS, _ => 0), 0, top, 0), stack, entry, pid, Running)
  }

  class Processes {
    const heap: Heap
    const slots: array<Option<Process>>
    /** The top of the trap stack, which all processes share. */
    var top: nat
    var current: Option<nat>
    var nextPid: nat

    ghost predicate Valid()
      reads this, slots, heap.frames.table
    {
      && heap.Valid() && slots.Length == SLOTS && (slots as object) != heap.frames.table
      && (slots as object) != heap.pages
      && TableOk(Table(slots[..], current)) && nextPid < PIDS
    }

    ghost function State(): Table
      reads this, slots
    {
      Table(slots[..], current)
    }

    constructor (heap: Heap)
      requires heap.Valid()
      ensures Valid() && fresh(slots) && this.heap == heap && top == 0 && slots.Length == 16
      ensures current == None && nextPid == 1 && forall i :: 0 <= i < 16 ==> slots[i] == None
    {
      this.heap, top := heap, 0;
      slots := new Option<Process>[SLOTS](_ => None);
      current, nextPid := None, 1;
    }

    /** Round robin from the slot after the running one; the running one's resume address is saved first. */
    method Pick(epc: nat) returns (r: Option<nat>)
      requires Valid()
      modifies this`current, slots
      ensures Valid() && (State(), r) == Schedule(old(State()), epc)
    {
      ghost var t := State();
      hide Scan, Stash, Dist;
      StashIs(t, epc);
      if current.Some? {
        var p := slots[current.value];
        if p.Some? && p.value.state == Running {
          slots[current.value] := Some(p.value.(pc := epc));
        }
      }
      ghost var u := Stash(t, epc);
      assert slots[..] == u.slots;
      var start := if current.Some? then (current.value + 1) % SLOTS else 0;
      for offset := 0 to SLOTS
        modifies this`current
        invariant slots[..] == u.slots && current == t.current
        invariant Scan(u.slots, start, 0) == Scan(u.slots, start, offset)
      {
        ScanStep(u.slots, start, offset);
        var i := (start + offset) % SLOTS;
        if slots[i].Some? && slots[i].value.state == Running {
          current := Some(i);
          return Some(i);
        }
      }
      ScanStep(u.slots, start, SLOTS);
      current := None;
      return None;
    }

    /** Drop the running process. */
    method ExitCurrent() returns (r: Option<nat>)
      requires Valid()
      modifies this`current, slots
      ensures Valid() && (State(), r) == Exit(old(State()))
    {
      if current.None? {
        return None;
      }
      var i := current.value;
      if slots[i].None? {
        return None;
      }
      var pid := slots[i].value.pid;
      slots[i] := None;
      current := None;
      return Some(pid);
    }

    /** A process in the lowest empty slot, on a zeroed stack of its own, under the next number. The number is used up
        and the stack stays taken even when there is no slot. */
    method SpawnKernel(entry: nat) returns (r: SpawnResult)
      requires Valid()
      modifies this`nextPid, slots, heap.frames.table, heap.pages
      ensures Valid() && current == old(current)
      ensures match FirstFit(old(heap.frames.table[..]), STACK_PAGES, 0)
        case None =>
          && r == OutOfMemory && heap.frames.table[..] == old(heap.frames.table[..])
          && heap.pages[..] == old(heap.pages[..])
          && slots[..] == old(slots[..]) && nextPid == old(nextPid)
        case Some(s) =>
          && heap.frames.table[..] == MarkRun(old(heap.frames.table[..]), s, STACK_PAGES)
          && (r == BadAccess <==> s + STACK_PAGES > heap.pages.Length)
          && (r == BadAccess ==> slots[..] == old(slots[..]) && nextPid == old(nextPid))
          && (r != BadAccess ==>
                && heap.pages[..] == Cleared(old(heap.pages[..]), s, STACK_PAGES)
                && nextPid == (old(nextPid) + 1) % PIDS
                && match FirstEmpty(old(slots[..]), 0)
                   case None => r == TableFull && slots[..] == old(slots[..])
                   case Some(i) =>
                     && r == Spawned(old(nextPid))
                     && slots[..]
                        == old(slots[..])[i := Some(NewProcess(heap.frames.layout, s, entry, top, old(nextPid)))])
    {
      ghost var was, t := slots[..], heap.frames.table[..];
      hide FirstFit, MarkRun, Runs, WellFormed, Cleared;
      var a := heap.Zallocate(STACK_PAGES);
      if !a.Zeroed? {
        return if a == NoMemory then OutOfMemory else BadAccess;
      }
      ghost var s := FirstFit(t, STACK_PAGES, 0).value;
      var stack := (a.addr - heap.frames.layout.AllocStart()) / PAGE_SIZE;
      assert stack == s;
      var pid := nextPid;
      nextPid := (nextPid + 1) % PIDS;
      var p := NewProcess(heap.frames.layout, stack, entry, top, pid);
      ghost var marked, cleared := heap.frames.table[..], heap.pages[..];
      for i := 0 to SLOTS
        modifies slots
        invariant slots[..] == was && heap.frames.table[..] == marked && heap.pages[..] == cleared
        invariant FirstEmpty(was, 0) == FirstEmpty(was, i)
      {
        if slots[i].None? {
          slots[i] := Some(p);
          assert slots[..] == was[i := Some(p)];
          return Spawned(pid);
        }
      }
      return TableFull;
    }
  }
}
