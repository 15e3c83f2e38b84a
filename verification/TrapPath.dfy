/** One trap from the interrupted instruction to the next: the vector saves the registers in the frame mscratch points
    at, the handler runs, and the vector restores from the frame mscratch points at then. The frames lie in word
    memory. */
module TrapPath {
  import opened PageFrame
  import opened TrapVector
  import opened ProcessTable
  import opened Machine
  import opened Scheduler
  import opened TrapHandler
  import opened Scratch
  import Minix3
  import Drive

  /** Where the boot frame and the frames of the slots lie. */
  datatype Places = Places(boot: nat, slots: seq<nat>)

  predicate Away(a: nat, b: nat) { a + FRAME_WORDS <= b || b + FRAME_WORDS <= a }

  /** All frames lie inside memory and apart from each other. */
  predicate Fits(pl: Places, words: nat) {
    && |pl.slots| == SLOTS && pl.boot + FRAME_WORDS <= words
    && (forall i :: 0 <= i < SLOTS ==> pl.slots[i] + FRAME_WORDS <= words && Away(pl.boot, pl.slots[i]))
    && (forall i, j :: 0 <= i < j < SLOTS ==> Away(pl.slots[i], pl.slots[j]))
  }

  function Addr(pl: Places, r: FrameRef): nat
    requires |pl.slots| == SLOTS && (r.Slot? ==> r.index < SLOTS)
  {
    if r.Static? then pl.boot else pl.slots[r.index]
  }

  /** Memory holds the frames of the kernel. */
  ghost predicate Backs(mem: seq<nat>, pl: Places, k: Kernel)
    requires Fits(pl, |mem|) && Frames(k)
  {
    && FrameAt(mem, pl.boot) == k.boot
    && forall i: nat :: i < SLOTS && k.table.slots[i].Some? ==>
         FrameAt(mem, pl.slots[i]) == k.table.slots[i].value.frame
  }

  /** Only words of the frame at `a` differ. */
  ghost predicate ChangedAt(mem: seq<nat>, now: seq<nat>, a: nat) {
    |now| == |mem| && forall w :: 0 <= w < |mem| && !(a <= w < a + FRAME_WORDS) ==> now[w] == mem[w]
  }

  lemma OtherFrame(mem: seq<nat>, now: seq<nat>, a: nat, b: nat)
    requires ChangedAt(mem, now, a) && Away(a, b) && b + FRAME_WORDS <= |mem|
    ensures FrameAt(now, b) == FrameAt(mem, b)
  {
    assert now[b..b + 32] == mem[b..b + 32] && now[b + 32..b + 64] == mem[b + 32..b + 64];
  }

  /** The words of a frame: registers from 0, floating-point registers from 32, satp at 64, the trap stack at 65 and the
      hart number at 66. */
  lemma FrameWord(mem: seq<nat>, a: nat)
    requires a + 67 <= |mem|
    ensures FrameAt(mem, a).satp == mem[a + 64] && FrameAt(mem, a).trapStack == mem[a + 65]
    ensures FrameAt(mem, a).hartid == mem[a + 66]
    ensures forall i :: 0 <= i < 32 ==> FrameAt(mem, a).regs[i] == mem[a + i]
    ensures |FrameAt(mem, a).fregs| == 32 && forall i :: 0 <= i < 32 ==> FrameAt(mem, a).fregs[i] == mem[a + 32 + i]
  {
  }

  lemma BackedFrame(mem: seq<nat>, pl: Places, k: Kernel)
    requires Fits(pl, |mem|) && HasFrame(k) && Backs(mem, pl, k)
    ensures Addr(pl, k.mscratch) + FRAME_WORDS <= |mem| && FrameAt(mem, Addr(pl, k.mscratch)) == FrameOf(k)
  {
    hide FrameAt;
  }

  /** Writing the frame mscratch points at. */
  lemma PutBacks(mem: seq<nat>, now: seq<nat>, pl: Places, k: Kernel, f: Frame)
    requires Fits(pl, |mem|) && HasFrame(k) && Backs(mem, pl, k) && |f.regs| == REGS
    requires ChangedAt(mem, now, Addr(pl, k.mscratch)) && FrameAt(now, Addr(pl, k.mscratch)) == f
    ensures Backs(now, pl, PutFrame(k, f))
  {
    hide FrameAt;
    var a := Addr(pl, k.mscratch);
    if k.mscratch.Slot? {
      OtherFrame(mem, now, a, pl.boot);
    }
    forall i: nat | i < SLOTS && k.mscratch != Slot(i)
      ensures FrameAt(now, pl.slots[i]) == FrameAt(mem, pl.slots[i])
    {
      OtherFrame(mem, now, a, pl.slots[i]);
    }
  }

  /** The kernel after the handler has no frame that differs, whatever slots it has emptied. */
  ghost predicate SameFrames(k: Kernel, t: Kernel)
    requires Frames(k)
  {
    && Frames(t) && t.boot == k.boot
    && forall i: nat :: i < SLOTS && t.table.slots[i].Some? ==>
         k.table.slots[i].Some? && t.table.slots[i].value.frame == k.table.slots[i].value.frame
  }

  lemma SameBacks(mem: seq<nat>, pl: Places, k: Kernel, t: Kernel)
    requires Fits(pl, |mem|) && Frames(k) && Backs(mem, pl, k) && SameFrames(k, t)
    ensures Backs(mem, pl, t)
  {
    hide FrameAt;
  }

  predicate IsRead(k: Kernel, cause: nat)
    requires HasFrame(k)
  {
    IsEcall(cause) && FrameOf(k).regs[A0] == SYS_READ
  }

  lemma ScheduleFrames(k: Kernel, t: Table, epc: nat)
    requires Frames(k) && TableOk(t)
    requires forall i: nat :: i < SLOTS && t.slots[i].Some? ==> t.slots[i] == k.table.slots[i]
    ensures var u := Schedule(t, epc).0;
      && TableOk(u)
      && forall i: nat :: i < SLOTS && u.slots[i].Some? ==>
           k.table.slots[i].Some? && u.slots[i].value.frame == k.table.slots[i].value.frame
  {
    hide Scan;
    StashIs(t, epc);
  }

  /** Apart from the answer of a read, the handler writes no frame. */
  lemma DispatchFrames(k: Kernel, cause: nat, epc: nat, answer: nat)
    requires HasFrame(k) && !IsRead(k, cause)
    ensures match Dispatch(k, cause, epc, answer)
      case Resume(t, _) => SameFrames(k, t)
      case Parked(t) => SameFrames(k, t)
      case Panic => true
  {
    hide Schedule;
    ScheduleFrames(k, k.table, epc);
    ScheduleFrames(k, Exit(k.table).0, epc);
  }

  lemma DispatchRead(k: Kernel, cause: nat, epc: nat, answer: nat)
    requires HasFrame(k) && IsRead(k, cause)
    ensures var f := FrameOf(k);
      Dispatch(k, cause, epc, answer) == Resume(PutFrame(k, f.(regs := f.regs[A0 := answer])), Skip(epc))
  {
  }

  /** Writing one register of a frame. */
  lemma PutA0(mem: seq<nat>, a: nat, value: nat)
    requires a + FRAME_WORDS <= |mem|
    ensures var now, f := mem[a + A0 := value], FrameAt(mem, a);
      ChangedAt(mem, now, a) && FrameAt(now, a) == f.(regs := f.regs[A0 := value])
  {
    var now, f := mem[a + A0 := value], FrameAt(mem, a);
    assert FrameAt(now, a).regs == f.regs[A0 := value] && FrameAt(now, a).fregs == f.fregs;
  }

  /** What a read asks for stands in the interrupted registers x12, x15 and x14, each cut to 32 bits. */
  lemma EnteredArgs(s: State)
    requires Shaped(s) && !s.parked
    ensures ReadInodeArg(FrameOf(Entered(s))) == s.x[12] % 0x1_0000_0000
    ensures ReadOffsetArg(FrameOf(Entered(s))) == s.x[15] % 0x1_0000_0000
    ensures ReadSizeArg(FrameOf(Entered(s))) == s.x[14] % 0x1_0000_0000
  {
    hide WellFormed;
  }

  /** A frame in use has the trap stack of the kernel. */
  lemma FrameStack(s: State)
    requires Inv(s) && !s.parked
    ensures FrameOf(s.k).trapStack == s.top
  {
    hide WellFormed, Runs;
    if s.k.mscratch.Slot? {
      assert Sound(s, s.k.mscratch.index);
    }
  }

  class Core {
    const hart: Hart
    const handler: Handler
    const places: Places

    /** The objects are apart, and together they are the machine in state `s`, at a trap or just back from one. */
    ghost predicate Holds(s: State)
      reads hart, hart.x, hart.mem, handler, handler.procs, handler.procs.slots, handler.procs.heap.frames.table
    {
      && hart.Valid() && handler.Valid() && Apart() && Fits(places, hart.mem.Length)
      && hart.mscratch == Addr(places, handler.mscratch) && Backs(hart.mem[..], places, handler.State())
      && Shaped(s) && !s.parked && s.k == handler.State() && s.x == hart.x[..] && s.pc == hart.mepc
      && s.pages == handler.procs.heap.frames.table[..] && s.layout == handler.procs.heap.frames.layout
      && s.top == handler.procs.top && s.nextPid == handler.procs.nextPid
    }

    predicate Apart() {
      && (hart.x as object) !in {handler.procs.slots as object, handler.procs.heap.frames.table as object}
      && (hart.mem as object) !in {handler.procs.slots as object, handler.procs.heap.frames.table as object}
    }

    /** From the trap to the handler: the machine's kernel with the interrupted registers saved. */
    method Save(tval: nat, cause: nat, hartid: nat, status: nat, ghost s: State)
      requires Holds(s)
      modifies hart`mscratch, hart.x, hart.mem, handler`boot, handler.procs.slots
      ensures hart.Valid() && handler.Valid() && hart.mscratch == Addr(places, handler.mscratch)
      ensures handler.State() == Entered(s) && Backs(hart.mem[..], places, Entered(s))
      ensures hart.x[10..15] == [s.pc, tval, cause, hartid, status] && (Inv(s) ==> hart.x[2] == s.top)
    {
      hide PutFrame, TrapVector.Save, FrameAt, Backs, WellFormed, Inv;
      ghost var m, k := hart.mem[..], handler.State();
      if Inv(s) {
        FrameStack(s);
      }
      BackedFrame(m, places, k);
      FrameWord(m, hart.mscratch);
      hart.Enter(tval, cause, hartid, status);
      assert hart.x[10..15] == hart.x[A0..A0 + 6][..5];
      var f := hart.Saved();
      PutBacks(m, hart.mem[..], places, k, f);
      handler.SetFrame(f);
    }

    /** From the handler's answer to the interrupted or chosen process: only a read has written a frame. */
    method Restore(pc: nat, cause: nat, ghost k: Kernel, ghost answer: nat)
      requires hart.Valid() && handler.Valid() && Apart() && Fits(places, hart.mem.Length) && HasFrame(k)
      requires hart.mscratch == Addr(places, k.mscratch) && Backs(hart.mem[..], places, k)
      requires Dispatch(k, cause, hart.mepc, answer) == Resume(handler.State(), pc)
      modifies hart`mscratch, hart`mepc, hart.x, hart.mem
      ensures hart.Valid() && hart.mscratch == Addr(places, handler.mscratch)
      ensures Backs(hart.mem[..], places, handler.State())
      ensures hart.mepc == pc && hart.x[..] == Load(FrameOf(handler.State()))
    {
      hide PutFrame, FrameAt, Backs, WellFormed, Dispatch, SameFrames, Load;
      ghost var m, a := hart.mem[..], Addr(places, k.mscratch);
      var read := IsEcall(cause) && hart.mem[hart.mscratch + A0] == SYS_READ;
      BackedFrame(m, places, k);
      FrameWord(m, a);
      if read {
        DispatchRead(k, cause, hart.mepc, answer);
        var f := handler.Current();
        PutA0(m, a, f.regs[A0]);
        hart.mem[hart.mscratch + A0] := f.regs[A0];
        assert hart.mem[..] == m[a + A0 := f.regs[A0]];
        PutBacks(m, hart.mem[..], places, k, FrameOf(handler.State()));
      } else {
        DispatchFrames(k, cause, hart.mepc, answer);
        SameBacks(m, places, k, handler.State());
      }
      BackedFrame(hart.mem[..], places, handler.State());
      hart.Return(pc, Addr(places, handler.mscratch));
      hart.Leave();
    }

    /** One trap through the vector, the handler and the vector again is the machine's step. The handler begins with the
        trap's words in `start` and x2 on the trap stack. It does not come back when no process is left, and it is lost
        exactly where the step is a panic or a read does not come back. */
    method OneTrap(cause: nat, tval: nat, hartid: nat, status: nat, drive: Drive.BlockDrive, out: array<Minix3.byte>,
                   ghost s: State) returns (r: Ending, ghost answer: nat, ghost start: seq<nat>)
      requires Holds(s) && drive.frames == handler.procs.heap.frames && handler.Separate(out)
      requires (out as object) !in {hart.x as object, hart.mem as object} && out.Length == hart.x[14] % 0x1_0000_0000
      modifies hart`mscratch, hart`mepc, hart.x, hart.mem, handler`boot, handler`mscratch, handler`faultSeen
      modifies handler.procs`current, handler.procs.slots, drive`log, drive.frames.table, out
      ensures |start| == 32 && start[10..15] == [s.pc, tval, cause, hartid, status] && (Inv(s) ==> start[2] == s.top)
      ensures r.ResumeAt? ==> Can(s, Trap(cause, answer)) && Holds(DoTrap(s, cause, answer))
      ensures r == Wait ==>
        && Can(s, Trap(cause, answer)) && DoTrap(s, cause, answer).parked
        && handler.State() == DoTrap(s, cause, answer).k
      ensures !IsRead(Entered(s), cause) ==> (r == Abort <==> Dispatch(Entered(s), cause, s.pc, answer).Panic?)
      ensures IsRead(Entered(s), cause) ==>
        var num, offset, size := s.x[12] % 0x1_0000_0000, s.x[15] % 0x1_0000_0000, s.x[14] % 0x1_0000_0000;
        LostExactly(r == Abort, ReadGoesWrong(drive.disk, num, offset, size), old(Calm(drive.frames)),
                    old(RoomFor(drive.frames, 5)) && drive.reliable)
      ensures IsRead(Entered(s), cause) && r != Abort ==>
        ReadAnswers(drive.disk, s.x[12] % 0x1_0000_0000, s.x[15] % 0x1_0000_0000, old(out[..]), out[..],
                    old(RoomFor(drive.frames, 5)) && drive.reliable, answer)
    {
      hide PutFrame, TrapVector.Save, FrameAt, Backs, WellFormed, Dispatch, ReadAnswers, ReadGoesWrong, LostExactly;
      hide RoomIn, Calm, Inv, Entered, Load, ReadInodeArg, ReadOffsetArg, ReadSizeArg;
      Save(tval, cause, hartid, status, s);
      ghost var k := Entered(s);
      EnteredArgs(s);
      start := hart.x[..];
      assert start[10..15] == [s.pc, tval, cause, hartid, status] && hart.x[A0] == start[10..15][0];
      r, answer := handler.MTrap(cause, hart.x[A0], drive, out);
      if r.ResumeAt? {
        Restore(r.pc, cause, k, answer);
      }
    }

    constructor (hart: Hart, handler: Handler, places: Places)
      ensures this.hart == hart && this.handler == handler && this.places == places
    {
      this.hart, this.handler, this.places := hart, handler, places;
    }
  }
}
