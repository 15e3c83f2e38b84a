/** The machine-mode trap vector: every general register goes to the frame that mscratch points at, and comes back
    from the frame mscratch points at on the way out. Memory is word-addressed. */
module TrapVector {
  const REGS: nat := 32
  const FRAME_WORDS: nat := 67
  const SP: nat := 2
  const A0: nat := 10
  const T5: nat := 30
  const T6: nat := 31

  datatype Frame = Frame(regs: seq<nat>, fregs: seq<nat>, satp: nat, trapStack: nat, hartid: nat)

  function FrameAt(mem: seq<nat>, f: nat): (r: Frame)
    requires f + FRAME_WORDS <= |mem|
    ensures |r.regs| == REGS
  {
    Frame(mem[f..f + 32], mem[f + 32..f + 64], mem[f + 64], mem[f + 65], mem[f + 66])
  }

  /** The frame with x1..x31 stored in it. */
  function Save(fr: Frame, x: seq<nat>): (r: Frame)
    requires |fr.regs| == |x| == REGS
    ensures |r.regs| == REGS
  {
    fr.(regs := [fr.regs[0]] + x[1..])
  }

  /** The registers as restored from a frame; x0 reads as zero. */
  function Load(fr: Frame): (x: seq<nat>)
    requires |fr.regs| == REGS
    ensures |x| == REGS && x[0] == 0
  {
    [0] + fr.regs[1..]
  }

  lemma LoadSave(fr: Frame, x: seq<nat>)
    requires |fr.regs| == |x| == REGS && x[0] == 0
    ensures Load(Save(fr, x)) == x
  {
  }

  /** Memory with registers 1 to `i - 1` stored above `f`. */
  ghost function Stored(m: seq<nat>, f: nat, x: seq<nat>, i: nat): (r: seq<nat>)
    requires 1 <= i <= |x| == REGS && f + FRAME_WORDS <= |m|
    ensures |r| == |m|
  {
    seq(|m|, w requires 0 <= w < |m| => if f < w < f + i then x[w - f] else m[w])
  }

  lemma StoreStep(m: seq<nat>, f: nat, x: seq<nat>, i: nat)
    requires 1 <= i < |x| == REGS && f + FRAME_WORDS <= |m|
    ensures Stored(m, f, x, i)[f + i := x[i]] == Stored(m, f, x, i + 1)
    ensures Stored(m, f, x, 1) == m
  {
  }

  lemma StoreAlike(m: seq<nat>, f: nat, x: seq<nat>, y: seq<nat>)
    requires |x| == |y| == REGS && x[..T6] == y[..T6] && f + FRAME_WORDS <= |m|
    ensures Stored(m, f, x, T6) == Stored(m, f, y, T6)
  {
    assert forall k :: 0 <= k < T6 ==> x[..T6][k] == y[..T6][k];
  }

  lemma StoredFrame(m: seq<nat>, f: nat, x: seq<nat>)
    requires |x| == REGS && f + FRAME_WORDS <= |m|
    ensures FrameAt(Stored(m, f, x, REGS), f) == Save(FrameAt(m, f), x)
  {
    assert FrameAt(Stored(m, f, x, REGS), f).regs == Save(FrameAt(m, f), x).regs;
    assert FrameAt(Stored(m, f, x, REGS), f).fregs == FrameAt(m, f).fregs;
  }

  class Hart {
    const x: array<nat>
    const mem: array<nat>
    var mscratch: nat
    var mepc: nat

    ghost predicate Valid()
      reads this, x
    {
      x.Length == REGS && x != mem && x[0] == 0 && mscratch + FRAME_WORDS <= mem.Length
    }

    constructor (x: array<nat>, mem: array<nat>, frame: nat)
      requires x.Length == REGS && x != mem && x[0] == 0 && frame + FRAME_WORDS <= mem.Length
      ensures Valid() && this.x == x && this.mem == mem && mscratch == frame
    {
      this.x, this.mem, mscratch, mepc := x, mem, frame, 0;
    }

    /** From the trap to the call of the handler: the frame holds the interrupted registers, no other word has
        changed, mscratch is as before, and the handler gets mepc, the frame and the trap stack. */
    method Enter(tval: nat, cause: nat, hart: nat, status: nat)
      requires Valid()
      modifies this`mscratch, x, mem
      ensures Valid() && mscratch == old(mscratch)
      ensures FrameAt(mem[..], mscratch) == Save(old(FrameAt(mem[..], mscratch)), old(x[..]))
      ensures forall w :: 0 <= w < mem.Length && !(mscratch < w < mscratch + REGS) ==> mem[w] == old(mem[w])
      ensures x[A0..A0 + 6] == [mepc, tval, cause, hart, status, mscratch] && x[SP] == old(mem[mscratch + 65])
    {
      ghost var m, r, f := mem[..], x[..], mscratch;
      x[T6], mscratch := mscratch, x[T6];
      SaveLow(f);
      StoreAlike(m, f, r, x[..]);
      StoreStep(m, f, r, T6);
      x[T5] := x[T6];
      x[T6] := mscratch;
      mem[x[T5] + T6] := x[T6];
      mscratch := x[T5];
      assert mem[..] == Stored(m, f, r, REGS);
      StoredFrame(m, f, r);
      x[A0], x[A0 + 1], x[A0 + 2], x[A0 + 3], x[A0 + 4], x[A0 + 5] := mepc, tval, cause, hart, status, x[T5];
      x[SP] := mem[x[A0 + 5] + 65];
      assert x[A0..A0 + 6] == [x[A0], x[A0 + 1], x[A0 + 2], x[A0 + 3], x[A0 + 4], x[A0 + 5]];
    }

    /** Store x1..x30 below the frame address held in t6. */
    method SaveLow(ghost f: nat)
      requires x.Length == REGS && x != mem && x[T6] == f && f + FRAME_WORDS <= mem.Length
      modifies mem
      ensures mem[..] == Stored(old(mem[..]), f, x[..], T6)
    {
      ghost var m := mem[..];
      var i := 1;
      while i < T6
        modifies mem
        invariant 1 <= i <= T6 && mem[..] == Stored(m, f, x[..], i)
      {
        StoreStep(m, f, x[..], i);
        mem[x[T6] + i] := x[i];
        i := i + 1;
      }
    }

    /** The frame mscratch points at. */
    method Saved() returns (f: Frame)
      requires Valid()
      ensures f == FrameAt(mem[..], mscratch)
    {
      f := FrameAt(mem[..], mscratch);
    }

    /** The handler's return: any register may have changed, a0 has the address to resume at, and mscratch may point at
        another frame. */
    method Return(pc: nat, frame: nat)
      requires Valid() && frame + FRAME_WORDS <= mem.Length
      modifies this`mscratch, x
      ensures Valid() && x[A0] == pc && mscratch == frame
    {
      for i := 1 to REGS
        modifies x
        invariant x[0] == 0
      {
        x[i] := *;
      }
      x[A0], mscratch := pc, frame;
    }

    /** From the handler's return to mret: the registers are those of the frame mscratch now points at, and
        execution resumes where the handler said. */
    method Leave()
      requires Valid()
      modifies this`mepc, x
      ensures Valid() && mepc == old(x[A0]) && x[..] == Load(FrameAt(mem[..], mscratch))
    {
      mepc := x[A0];
      x[T6] := mscratch;
      ghost var f := mscratch;
      var i := 1;
      while i <= T6
        modifies x
        invariant 1 <= i <= REGS && x[0] == 0 && (i <= T6 ==> x[T6] == f)
        invariant forall k :: 1 <= k < i ==> x[k] == mem[f + k]
      {
        x[i] := mem[x[T6] + i];
        i := i + 1;
      }
    }
  }
}
