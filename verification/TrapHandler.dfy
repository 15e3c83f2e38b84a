/** The trap handler behind the vector: dispatch on the cause, system calls, and the context-switch tick. */
module TrapHandler {
  import opened PageFrame
  import opened TrapVector
  import opened ProcessTable
  import opened Machine
  import opened ZeroedPages
  import opened Scratch
  import Minix3
  import Minix3Fs
  import Drive

  const TRAP_STACK_PAGES: nat := 4
  const WORD: nat := 0x1_0000_0000

  /** A frame of zeros. */
  function EmptyFrame(): (f: Frame)
    ensures |f.regs| == REGS
  {
    Frame(seq(REGS, _ => 0), seq(REGS, _ => 0), 0, 0, 0)
  }

  /** The arguments of a read: inode number, byte count and file offset, cut to 32 bits. */
  function ReadInodeArg(f: Frame): nat
    requires |f.regs| == REGS
  {
    f.regs[12] % WORD
  }

  function ReadSizeArg(f: Frame): nat
    requires |f.regs| == REGS
  {
    f.regs[14] % WORD
  }

  function ReadOffsetArg(f: Frame): nat
    requires |f.regs| == REGS
  {
    f.regs[15] % WORD
  }

  /** A read answers as promised: without such an inode zero bytes and an untouched buffer, otherwise how the walk over
      the file went, zero only when a read failed, and on a sound part of a file the bytes of that part. */
  ghost predicate ReadAnswers(disk: Minix3.Disk, num: nat, offset: nat, before: seq<Minix3.byte>,
                              after: seq<Minix3.byte>, sure: bool, answer: nat) {
    && (!Minix3Fs.Named(disk, num) ==> answer == 0 && after == before)
    && (Minix3Fs.Named(disk, num) ==>
          Minix3Fs.FileAnswer(disk, Minix3Fs.InodeAt(disk, num), offset, before, after, sure, Minix3Fs.Copied(answer)))
    && (Minix3Fs.Named(disk, num) && sure ==>
          var n := Minix3Fs.InodeAt(disk, num);
          Minix3Fs.GoodWindow(disk, n, offset, |before|) ==>
            Minix3Fs.FlatRead(disk, n, offset, before, after, Minix3Fs.Copied(answer)))
  }

  /** A read goes wrong: the inode exists and the walk over its file runs past the buffer or subtracts a larger offset
      from a smaller one. */
  ghost predicate ReadGoesWrong(disk: Minix3.Disk, num: nat, offset: nat, size: nat) {
    Minix3Fs.Named(disk, num) && Minix3Fs.ReadBreaks(disk, Minix3Fs.InodeAt(disk, num), offset, size)
  }

  /** The read a frame asks for goes wrong, or answers. */
  ghost predicate AskedGoesWrong(disk: Minix3.Disk, f: Frame)
    requires |f.regs| == REGS
  {
    ReadGoesWrong(disk, ReadInodeArg(f), ReadOffsetArg(f), ReadSizeArg(f))
  }

  ghost predicate AskedAnswers(disk: Minix3.Disk, f: Frame, before: seq<Minix3.byte>, after: seq<Minix3.byte>,
                               sure: bool, answer: nat)
    requires |f.regs| == REGS
  {
    ReadAnswers(disk, ReadInodeArg(f), ReadOffsetArg(f), before, after, sure, answer)
  }

  /** The allocator takes back every page a read can take: there is room for five below the heap end, or no free page
      lies past it. */
  ghost predicate Calm(frames: PageFrames)
    reads frames.table
  {
    RoomFor(frames, 5) || !FreeBeyond(frames.layout, frames.table[..])
  }

  /** A call does not come back: on a calm allocator only if it goes wrong, and then always when no read can fail. */
  ghost predicate LostExactly(lost: bool, wrong: bool, calm: bool, sure: bool) {
    (lost && calm ==> wrong) && (wrong && sure ==> lost)
  }

  /** How the handler ends: it names the address to resume at, waits forever with no process left, or panics. */
  datatype Ending = ResumeAt(pc: nat) | Wait | Abort

  class Handler {
    const procs: Processes
    var boot: Frame
    var mscratch: FrameRef
    /** An access fault was stepped over since the flag was last cleared. */
    var faultSeen: bool

    ghost predicate Valid()
      reads this, procs, procs.slots, procs.heap.frames.table
    {
      procs.Valid() && HasFrame(State())
    }

    ghost function State(): Kernel
      reads this`boot, this`mscratch, procs, procs.slots
    {
      Kernel(procs.State(), boot, mscratch)
    }

    constructor (procs: Processes)
      requires procs.Valid() && forall i :: 0 <= i < SLOTS ==> procs.slots[i] == None
      ensures Valid() && this.procs == procs && mscratch == Static && boot == EmptyFrame() && !faultSeen
    {
      this.procs := procs;
      boot, mscratch, faultSeen := EmptyFrame(), Static, false;
    }

    /** Set up the trap path: a zeroed trap stack for the boot frame and for every process spawned later, and mscratch
        on the boot frame. */
    method Install(satp: nat) returns (r: Zeroed)
      requires Valid()
      modifies this`boot, this`mscratch, procs`top, procs.heap.frames.table, procs.heap.pages
      ensures procs.Valid() && procs.State() == old(procs.State())
      ensures match FirstFit(old(procs.heap.frames.table[..]), 4, 0)
        case None =>
          r == NoMemory && State() == old(State()) && procs.heap.frames.table[..] == old(procs.heap.frames.table[..])
        case Some(s) =>
          && procs.heap.frames.table[..] == MarkRun(old(procs.heap.frames.table[..]), s, 4)
          && r == (if s + 4 <= procs.heap.pages.Length
                   then Zeroed(procs.heap.frames.layout.PageAddr(s))
                   else OutsideRam)
          && (r.Zeroed? ==>
                && procs.heap.pages[..] == Cleared(old(procs.heap.pages[..]), s, 4)
                && procs.top == r.addr + 16384
                && boot == old(boot).(satp := satp, trapStack := procs.top, hartid := 0) && mscratch == Static
                && Valid())
    {
      hide FirstFit, MarkRun, Runs, WellFormed, Cleared;
      r := procs.heap.Zallocate(TRAP_STACK_PAGES);
      if !r.Zeroed? {
        return;
      }
      procs.top := r.addr + TRAP_STACK_PAGES * PAGE_SIZE;
      boot := boot.(satp := satp, trapStack := procs.top, hartid := 0);
      mscratch := Static;
    }

    /** Whether an access fault was stepped over; asking clears the flag. */
    method TakeAccessFault() returns (seen: bool)
      modifies this`faultSeen
      ensures seen == old(faultSeen) && !faultSeen
    {
      seen, faultSeen := faultSeen, false;
    }

    /** The frame whose registers the trap vector has just saved. */
    method Current() returns (f: Frame)
      requires Valid()
      ensures f == FrameOf(State())
    {
      if mscratch.Static? {
        return boot;
      }
      return procs.slots[mscratch.index].value.frame;
    }

    method SetReturn(value: nat)
      requires Valid()
      modifies this`boot, procs.slots
      ensures Valid()
      ensures State() == PutFrame(old(State()), FrameOf(old(State())).(regs := FrameOf(old(State())).regs[A0 := value]))
    {
      var f := Current();
      SetFrame(f.(regs := f.regs[A0 := value]));
    }

    /** Write the frame mscratch points at. */
    method SetFrame(f: Frame)
      requires Valid() && |f.regs| == REGS
      modifies this`boot, procs.slots
      ensures Valid() && State() == PutFrame(old(State()), f)
    {
      ghost var k := PutFrame(State(), f);
      if mscratch.Static? {
        boot := f;
      } else {
        var p := procs.slots[mscratch.index].value;
        procs.slots[mscratch.index] := Some(p.(frame := f));
      }
      assert State() == k;
    }

    /** The tick: choose, and point mscratch at the chosen frame. */
    method Tick(epc: nat) returns (pc: nat)
      requires Valid()
      modifies this`mscratch, procs`current, procs.slots
      ensures Valid() && Resume(State(), pc) == Switch(old(State()), epc)
    {
      ghost var k := State();
      hide Schedule;
      var pick := procs.Pick(epc);
      if pick.None? {
        return epc;
      }
      ghost var r := Switch(k, epc);
      assert procs.slots[pick.value].Some?;
      mscratch := Slot(pick.value);
      assert State() == r.k;
      return procs.slots[pick.value].value.pc;
    }

    /** The read system call into the caller's buffer; no answer when the read itself breaks down. */
    method DoRead(drive: Drive.BlockDrive, out: array<Minix3.byte>) returns (answer: Option<nat>)
      requires Valid() && drive.frames == procs.heap.frames && Separate(out)
      requires out.Length == ReadSizeArg(FrameOf(State()))
      modifies drive`log, drive.frames.table, out
      ensures State() == old(State()) && procs.State() == old(procs.State())
      ensures LostExactly(answer.None?, AskedGoesWrong(drive.disk, FrameOf(State())), old(Calm(drive.frames)),
                          old(RoomFor(drive.frames, 5)) && drive.reliable)
      ensures answer.Some? ==> Valid() && drive.frames.table[..] == old(drive.frames.table[..])
      ensures answer.Some? ==>
        AskedAnswers(drive.disk, FrameOf(State()), old(out[..]), out[..],
                     old(RoomFor(drive.frames, 5)) && drive.reliable, answer.value)
    {
      var f := Current();
      hide HasFrame, RoomIn, WellFormed, Minix3Fs.GoodWindow, Minix3Fs.FlatRead, Minix3Fs.Named, Minix3Fs.SysAsks;
      hide Minix3Fs.Logged, Minix3Fs.InodeAt, Minix3Fs.FileAnswer, Minix3Fs.ReadBreaks, FreeBeyond;
      ghost var before, sure := out[..], RoomFor(drive.frames, 5) && drive.reliable;
      var r := Minix3Fs.SysRead(drive, ReadInodeArg(f), ReadOffsetArg(f), out);
      if Minix3Fs.Named(drive.disk, ReadInodeArg(f)) && r != Minix3Fs.Panicked {
        Minix3Fs.AnswerIff(drive.disk, Minix3Fs.InodeAt(drive.disk, ReadInodeArg(f)), ReadOffsetArg(f), before, out[..],
                           sure, r);
      }
      return if r.Copied? then Some(r.count) else None;
    }

    /** The caller's buffer is neither the allocator's table nor the process table. */
    predicate Separate(out: array<Minix3.byte>) {
      && (out as object) != procs.heap.frames.table && (out as object) != procs.slots
      && (out as object) != procs.heap.pages
    }

    /** The ecall dispatcher. `out` is the memory a read names; `answer` is what the read returned. */
    method DoSyscall(epc: nat, drive: Drive.BlockDrive, out: array<Minix3.byte>) returns (r: Ending, ghost answer: nat)
      requires Valid() && drive.frames == procs.heap.frames && Separate(out)
      requires out.Length == ReadSizeArg(FrameOf(State()))
      modifies this`boot, this`mscratch, procs`current, procs.slots, drive`log, drive.frames.table, out
      ensures r == Abort ==> FrameOf(old(State())).regs[A0] == SYS_READ && State() == old(State())
      ensures r == Abort ==> Syscall(old(State()), epc, answer).Resume?
      ensures FrameOf(old(State())).regs[A0] == SYS_READ ==>
        LostExactly(r == Abort, AskedGoesWrong(drive.disk, FrameOf(old(State()))), old(Calm(drive.frames)),
                    old(RoomFor(drive.frames, 5)) && drive.reliable)
      ensures r != Abort ==>
        && drive.frames.table[..] == old(drive.frames.table[..])
        && match Syscall(old(State()), epc, answer)
           case Resume(k, pc) => Valid() && r == ResumeAt(pc) && State() == k
           case Parked(k) => r == Wait && State() == k
           case Panic => false
      ensures r != Abort && FrameOf(old(State())).regs[A0] == SYS_READ ==>
        AskedAnswers(drive.disk, FrameOf(old(State())), old(out[..]), out[..],
                     old(RoomFor(drive.frames, 5)) && drive.reliable, answer)
      ensures FrameOf(old(State())).regs[A0] != SYS_READ ==> out[..] == old(out[..]) && drive.log == old(drive.log)
    {
      ghost var k := State();
      answer := 0;
      var f := Current();
      hide AskedAnswers, AskedGoesWrong, LostExactly, Calm, RoomIn, WellFormed;
      if f.regs[A0] == SYS_READ {
        var got := DoRead(drive, out);
        if got.None? {
          return Abort, 0;
        }
        answer := got.value;
        SetReturn(got.value);
        return ResumeAt(Skip(epc)), answer;
      } else if f.regs[A0] == SYS_EXIT {
        r := ExitAndSwitch(epc);
        ExitAnswer(k, epc, answer);
      } else {
        return ResumeAt(Skip(epc)), 0;
      }
    }

    static lemma ExitAnswer(k: Kernel, epc: nat, answer: nat)
      requires HasFrame(k) && FrameOf(k).regs[A0] == SYS_EXIT
      ensures Syscall(k, epc, answer) == Syscall(k, epc, 0)
    {
    }

    method ExitAndSwitch(epc: nat) returns (r: Ending)
      requires Valid() && FrameOf(State()).regs[A0] == SYS_EXIT
      modifies this`mscratch, procs`current, procs.slots
      ensures match Syscall(old(State()), epc, 0)
        case Resume(k, pc) => Valid() && r == ResumeAt(pc) && State() == k
        case Parked(k) => r == Wait && State() == k
        case Panic => false
    {
      ghost var k := State();
      ghost var handled := Syscall(k, epc, 0);
      hide Schedule;
      var pid := procs.ExitCurrent();
      var pick := procs.Pick(epc);
      if pick.None? {
        return Wait;
      }
      assert procs.slots[pick.value].Some?;
      mscratch := Slot(pick.value);
      assert State() == handled.k;
      return ResumeAt(procs.slots[pick.value].value.pc);
    }

    method MTrap(cause: nat, epc: nat, drive: Drive.BlockDrive, out: array<Minix3.byte>)
      returns (r: Ending, ghost answer: nat)
      requires Valid() && drive.frames == procs.heap.frames && Separate(out)
      requires out.Length == ReadSizeArg(FrameOf(State()))
      modifies this`boot, this`mscratch, this`faultSeen, procs`current, procs.slots, drive`log, drive.frames.table, out
      ensures match Dispatch(old(State()), cause, epc, answer)
        case Resume(k, pc) =>
          || (Valid() && r == ResumeAt(pc) && State() == k)
          || (r == Abort && IsEcall(cause) && FrameOf(old(State())).regs[A0] == SYS_READ)
        case Parked(k) => r == Wait && State() == k
        case Panic => r == Abort && State() == old(State())
      ensures IsEcall(cause) && FrameOf(old(State())).regs[A0] == SYS_READ ==>
        LostExactly(r == Abort, AskedGoesWrong(drive.disk, FrameOf(old(State()))), old(Calm(drive.frames)),
                    old(RoomFor(drive.frames, 5)) && drive.reliable)
      ensures IsEcall(cause) && r != Abort && FrameOf(old(State())).regs[A0] == SYS_READ ==>
        AskedAnswers(drive.disk, FrameOf(old(State())), old(out[..]), out[..],
                     old(RoomFor(drive.frames, 5)) && drive.reliable, answer)
      ensures !IsEcall(cause) ==>
        out[..] == old(out[..]) && drive.log == old(drive.log) && drive.frames.table[..] == old(drive.frames.table[..])
      ensures r != Abort ==> drive.frames.table[..] == old(drive.frames.table[..])
      ensures faultSeen == (old(faultSeen) || IsAccessFault(cause))
    {
      hide Switch, Syscall, AskedAnswers, AskedGoesWrong, LostExactly, Calm, RoomIn, WellFormed;
      answer := 0;
      var code := CauseCode(cause);
      if IsInterrupt(cause) {
        if code == 7 {
          var pc := Tick(epc);
          return ResumeAt(pc), 0;
        }
        return if code == 3 || code == 11 then ResumeAt(epc) else Abort, 0;
      }
      if code == 8 || code == 9 {
        r, answer := DoSyscall(epc, drive, out);
      } else if code == 5 || code == 7 {
        faultSeen := true;
        return ResumeAt(Skip(epc)), 0;
      } else if code == 12 || code == 13 || code == 15 {
        return ResumeAt(Skip(epc)), 0;
      } else {
        return Abort, 0;
      }
    }
  }
}
