/** Bounded waiting and strict rotation of the round-robin scheduler over whole runs. */
module SchedulerFair {
  import opened PageFrame
  import opened TrapVector
  import opened ProcessTable
  import opened Machine
  import opened Scheduler
  import opened SchedulerRuns

  // ---------------------------------------------------------------- going round

  lemma DistIs(a: nat, b: nat)
    requires a < SLOTS && b < SLOTS
    ensures Dist(a, b) == if b >= a then b - a else b - a + SLOTS
  {
  }

  /** A choice other than `i`, and no farther than `i`, brings `i` nearer. */
  lemma Nearer(start: nat, c: nat, i: nat)
    requires start < SLOTS && c < SLOTS && i < SLOTS && c != i && Dist(start, c) <= Dist(start, i)
    ensures Dist((c + 1) % SLOTS, i) + Dist(start, c) + 1 == Dist(start, i)
  {
    DistIs(start, c);
    DistIs(start, i);
    DistIs((c + 1) % SLOTS, i);
  }

  /** Seen from `i`, the choice advances, and it does not jump over `j`. */
  lemma Advances(i: nat, c: nat, d: nat, j: nat)
    requires i < SLOTS && c < SLOTS && d < SLOTS && j < SLOTS && d != i && j != i
    requires Dist((c + 1) % SLOTS, d) <= Dist((c + 1) % SLOTS, i)
    requires Dist((c + 1) % SLOTS, d) <= Dist((c + 1) % SLOTS, j)
    ensures Dist(i, c) < Dist(i, d) && (Dist(i, c) < Dist(i, j) ==> Dist(i, d) <= Dist(i, j))
    ensures Dist(i, d) == Dist(i, j) <==> d == j
  {
    var s := (c + 1) % SLOTS;
    hide Dist;
    DistIs(s, d);
    DistIs(s, i);
    DistIs(s, j);
    DistIs(i, c);
    DistIs(i, d);
    DistIs(i, j);
  }

  /** When the choice comes back to `i`, everyone has been passed. */
  lemma Closes(i: nat, c: nat, j: nat)
    requires i < SLOTS && c < SLOTS && j < SLOTS && j != i && Dist((c + 1) % SLOTS, i) <= Dist((c + 1) % SLOTS, j)
    ensures Dist(i, c) >= Dist(i, j)
  {
    var s := (c + 1) % SLOTS;
    DistIs(s, i);
    DistIs(s, j);
    DistIs(i, c);
    DistIs(i, j);
  }

  // ---------------------------------------------------------------- one choice

  /** The step asks the scheduler. */
  ghost predicate Asks(s: State, step: Step) {
    Ticks(step) || Exits(s, step)
  }

  /** Nobody but the scheduler changes who runs. */
  lemma OthersDoNotChoose(s: State, step: Step)
    requires Inv(s) && Can(s, step) && !Asks(s, step)
    ensures Do(s, step).k.table.current == s.k.table.current
  {
    hide Inv, MarkRun, FirstFit, WellFormed, Runs, Load;
    if step.Trap? {
      ReturnIs(s, step.cause, step.answer);
    }
  }

  /** The nearest runnable slot behind `start` is chosen. */
  ghost predicate Nearest(s: State, start: nat, d: nat)
    requires |s.k.table.slots| == SLOTS
  {
    d < SLOTS && forall j: nat :: Runnable(s.k.table.slots, j) ==> Dist(start, d) <= Dist(start, j)
  }

  lemma TickChoice(s: State, step: Step, i: nat) returns (d: nat)
    requires Inv(s) && Can(s, step) && Ticks(step) && Runnable(s.k.table.slots, i)
    ensures Do(s, step).k.table.current == Some(d) && Nearest(s, StartOf(s.k.table), d)
  {
    TickIs(s, step.cause, step.answer);
    var e := Entered(s).table;
    assert Do(s, step).k.table.current == Schedule(e, s.pc).1 && StartOf(e) == StartOf(s.k.table);
    hide Inv, Do, Can, Dispatch, DoTrap, Runs, WellFormed, Load, Scan, Stash, Dist, Save, PutFrame, Entered, StartOf;
    EnteredSlots(s, i);
    d := Schedule(e, s.pc).1.value;
    forall j: nat | Runnable(s.k.table.slots, j) ensures Dist(StartOf(s.k.table), d) <= Dist(StartOf(s.k.table), j) {
      EnteredSlots(s, j);
    }
  }

  /** An exit starts the search at slot zero. */
  lemma ExitChoice(s: State, step: Step, i: nat) returns (d: nat)
    requires Inv(s) && Can(s, step) && Exits(s, step) && Runnable(s.k.table.slots, i) && s.k.table.current != Some(i)
    ensures Do(s, step).k.table.current == Some(d) && d <= i
  {
    ExitIs(s, step.cause, step.answer);
    var e := Exit(Entered(s).table).0;
    EnteredSlots(s, i);
    if s.k.table.current.Some? {
      EnteredSlots(s, s.k.table.current.value);
    }
    hide Dispatch, DoTrap, Runs, WellFormed, Load, Scan, Stash, Dist, Save, PutFrame;
    assert Runnable(e.slots, i) && e.current == None;
    hide Exit;
    d := Schedule(e, s.pc).1.value;
    DistIs(0, d);
    DistIs(0, i);
  }

  // ---------------------------------------------------------------- bounded waiting

  ghost predicate PicksAt(trace: seq<State>, steps: seq<Step>, k: nat, j: nat)
    requires k < |steps| && |trace| == |steps| + 1
  {
    Asks(trace[k], steps[k]) && trace[k + 1].k.table.current == Some(j)
  }

  ghost predicate PicksOther(trace: seq<State>, steps: seq<Step>, k: nat, i: nat)
    requires k < |steps| && |trace| == |steps| + 1
  {
    Asks(trace[k], steps[k]) && trace[k + 1].k.table.current.Some? && trace[k + 1].k.table.current != Some(i)
  }

  /** How often the scheduler chose someone other than slot `i`. */
  ghost function OtherPicks(trace: seq<State>, steps: seq<Step>, a: nat, b: nat, i: nat): nat
    requires a <= b <= |steps| && |trace| == |steps| + 1
    decreases b
  {
    if a == b then 0 else OtherPicks(trace, steps, a, b - 1, i) + if PicksOther(trace, steps, b - 1, i) then 1 else 0
  }

  ghost function ExitCount(trace: seq<State>, steps: seq<Step>, a: nat, b: nat): nat
    requires a <= b <= |steps| && |trace| == |steps| + 1
    decreases b
  {
    if a == b then 0 else ExitCount(trace, steps, a, b - 1) + if Exits(trace[b - 1], steps[b - 1]) then 1 else 0
  }

  /** How many others can still be chosen before slot `i`. */
  ghost function Ahead(s: State, i: nat): (n: nat)
    ensures n < SLOTS
  {
    if TableOk(s.k.table) then Dist(StartOf(s.k.table), i) else 0
  }

  lemma LiveRuns(s: State, i: nat, u: nat)
    requires Inv(s) && Lives(s, i, u)
    ensures Runnable(s.k.table.slots, i) && TableOk(s.k.table)
  {
    assert Sound(s, i);
  }

  lemma NoExitOfLive(s: State, step: Step, i: nat, u: nat)
    requires Inv(s) && Can(s, step) && Exits(s, step) && Lives(s, i, u) && Lives(Do(s, step), i, u)
    ensures s.k.table.current != Some(i)
  {
    StepKeeps(s, step);
    assert Shaped(s);
    hide Inv, DoTrap;
    ExitTransparent(s, step.cause, step.answer, i);
  }

  lemma AheadAfter(s: State, i: nat)
    requires TableOk(s.k.table) && s.k.table.current.Some?
    ensures Ahead(s, i) == Dist((s.k.table.current.value + 1) % SLOTS, i)
  {
  }

  lemma AheadIs(s: State, i: nat)
    requires TableOk(s.k.table)
    ensures Ahead(s, i) == Dist(StartOf(s.k.table), i)
  {
  }

  lemma AheadSame(s: State, t: State, i: nat)
    requires TableOk(s.k.table) && TableOk(t.k.table) && t.k.table.current == s.k.table.current
    ensures Ahead(t, i) == Ahead(s, i)
  {
  }

  /** A choice other than `i` among the runnable slots behind the running one brings `i` nearer. */
  lemma AheadLess(s: State, t: State, i: nat, d: nat)
    requires TableOk(s.k.table) && TableOk(t.k.table) && t.k.table.current == Some(d) && d != i
    requires Runnable(s.k.table.slots, i) && Nearest(s, StartOf(s.k.table), d)
    ensures Ahead(t, i) + 1 <= Ahead(s, i)
  {
    AheadAfter(t, i);
    AheadIs(s, i);
    assert i < SLOTS;
    hide Dist, StartOf, Ahead;
    Nearer(StartOf(s.k.table), d, i);
  }

  lemma AheadTick(s: State, step: Step, i: nat, u: nat)
    requires Inv(s) && Can(s, step) && Lives(s, i, u) && Inv(Do(s, step)) && Ticks(step)
    requires Do(s, step).k.table.current != Some(i)
    ensures Do(s, step).k.table.current.Some? && Ahead(Do(s, step), i) + 1 <= Ahead(s, i)
  {
    var t := Do(s, step);
    assert TableOk(t.k.table);
    hide *;
    LiveRuns(s, i, u);
    var d := TickChoice(s, step, i);
    AheadLess(s, t, i, d);
  }

  /** After an exit the search starts at slot zero. */
  lemma AheadFromZero(t: State, i: nat, d: nat)
    requires TableOk(t.k.table) && t.k.table.current == Some(d) && d < i < SLOTS
    ensures Ahead(t, i) + 1 <= 15
  {
    AheadAfter(t, i);
    DistIs((d + 1) % SLOTS, i);
  }

  lemma AheadExit(s: State, step: Step, i: nat, u: nat)
    requires Inv(s) && Can(s, step) && Lives(s, i, u) && Lives(Do(s, step), i, u) && Inv(Do(s, step))
    requires Exits(s, step) && Do(s, step).k.table.current != Some(i)
    ensures Do(s, step).k.table.current.Some? && Ahead(Do(s, step), i) + 1 <= 15
  {
    var t := Do(s, step);
    assert TableOk(t.k.table) && i < SLOTS;
    hide Inv, Do, Can, Lives, Exits, Ahead, Runnable;
    LiveRuns(s, i, u);
    NoExitOfLive(s, step, i, u);
    var d := ExitChoice(s, step, i);
    AheadFromZero(t, i, d);
  }

  lemma AheadStep(s: State, step: Step, i: nat, u: nat)
    requires Inv(s) && Can(s, step) && Lives(s, i, u) && Lives(Do(s, step), i, u)
    ensures var t := Do(s, step);
      && (!Asks(s, step) ==> Ahead(t, i) == Ahead(s, i))
      && (Ticks(step) && t.k.table.current != Some(i) ==> t.k.table.current.Some? && Ahead(t, i) + 1 <= Ahead(s, i))
      && (Exits(s, step) && t.k.table.current != Some(i) ==> t.k.table.current.Some? && Ahead(t, i) + 1 <= 15)
  {
    var t := Do(s, step);
    StepKeeps(s, step);
    LiveRuns(s, i, u);
    LiveRuns(t, i, u);
    hide *;
    if !Asks(s, step) {
      OthersDoNotChoose(s, step);
      AheadSame(s, t, i);
    } else if t.k.table.current != Some(i) {
      if Ticks(step) {
        AheadTick(s, step, i, u);
      }
      if Exits(s, step) {
        AheadExit(s, step, i, u);
      }
    }
  }

  /** One step of the wait: a choice of another is paid for by the way ahead, or by an exit. */
  lemma WaitingStep(trace: seq<State>, steps: seq<Step>, k: nat, i: nat, u: nat)
    requires Run(trace, steps) && k < |steps| && Lives(trace[k], i, u) && Lives(trace[k + 1], i, u)
    requires !PicksAt(trace, steps, k, i)
    ensures (if PicksOther(trace, steps, k, i) then 1 else 0) + Ahead(trace[k + 1], i)
         <= Ahead(trace[k], i) + if Exits(trace[k], steps[k]) then 15 else 0
  {
    assert |trace| == |steps| + 1;
    hide Run, Lives, Inv, Do, Can, Ahead, Shaped, Ticks, Exits;
    At(trace, steps, k, i, u);
    AheadStep(trace[k], steps[k], i, u);
  }

  lemma {:induction false} WaitingLeft(trace: seq<State>, steps: seq<Step>, a: nat, b: nat, i: nat, u: nat)
    requires Run(trace, steps) && LivesFrom(trace, a, b, i, u)
    requires forall k: nat :: a <= k < b ==> !PicksAt(trace, steps, k, i)
    ensures OtherPicks(trace, steps, a, b, i) + Ahead(trace[b], i)
         <= Ahead(trace[a], i) + 15 * ExitCount(trace, steps, a, b)
    decreases b
  {
    if a < b {
      WaitingLeft(trace, steps, a, b - 1, i, u);
      assert Lives(trace[b - 1], i, u) && Lives(trace[b], i, u) && !PicksAt(trace, steps, b - 1, i);
      assert |trace| == |steps| + 1;
      hide Run, Lives, LivesFrom, Ahead, Exits, PicksAt, PicksOther;
      WaitingStep(trace, steps, b - 1, i, u);
    }
  }

  /** While a process stays in its slot and is not chosen, at most 15 choices of others happen, and 15 more for every
      exit in between, however many processes are spawned meanwhile. */
  lemma BoundedWaiting(trace: seq<State>, steps: seq<Step>, a: nat, b: nat, i: nat, u: nat)
    requires Run(trace, steps) && LivesFrom(trace, a, b, i, u)
    requires forall k: nat :: a <= k < b ==> !PicksAt(trace, steps, k, i)
    ensures OtherPicks(trace, steps, a, b, i) <= 15 * (ExitCount(trace, steps, a, b) + 1)
  {
    WaitingLeft(trace, steps, a, b, i, u);
  }

  // ---------------------------------------------------------------- strict rotation

  ghost function PickCount(trace: seq<State>, steps: seq<Step>, a: nat, b: nat, j: nat): nat
    requires a <= b <= |steps| && |trace| == |steps| + 1
    decreases b
  {
    if a == b then 0 else PickCount(trace, steps, a, b - 1, j) + if PicksAt(trace, steps, b - 1, j) then 1 else 0
  }

  /** No exit, and no choice of `i`, between states `a` and `b`. */
  ghost predicate Between(trace: seq<State>, steps: seq<Step>, a: nat, b: nat, i: nat) {
    && |trace| == |steps| + 1 && a <= b < |trace|
    && forall k: nat :: a <= k < b ==> !PicksAt(trace, steps, k, i) && !Exits(trace[k], steps[k])
  }

  lemma TurnStep(s: State, step: Step, i: nat, u: nat, j: nat, v: nat)
    requires Inv(s) && Can(s, step) && !Exits(s, step) && Lives(s, i, u) && Lives(s, j, v) && i != j
    requires s.k.table.current.Some?
    ensures var t := Do(s, step);
      && TableOk(s.k.table) && t.k.table.current.Some? && t.k.table.current.value < SLOTS
      && (!Ticks(step) ==> t.k.table.current == s.k.table.current)
      && (Ticks(step) && t.k.table.current != Some(i) ==>
            && Dist(i, s.k.table.current.value) < Dist(i, t.k.table.current.value)
            && (Dist(i, s.k.table.current.value) < Dist(i, j) ==> Dist(i, t.k.table.current.value) <= Dist(i, j))
            && (Dist(i, t.k.table.current.value) == Dist(i, j) <==> t.k.table.current == Some(j)))
      && (Ticks(step) && t.k.table.current == Some(i) ==> Dist(i, s.k.table.current.value) >= Dist(i, j))
  {
    var t := Do(s, step);
    LiveRuns(s, i, u);
    LiveRuns(s, j, v);
    var c := s.k.table.current.value;
    hide Inv, Do, Can, Dist, Runnable;
    if Ticks(step) {
      var d := TickChoice(s, step, i);
      assert Runnable(s.k.table.slots, i) && Runnable(s.k.table.slots, j);
      if d != i {
        Advances(i, c, d, j);
      } else {
        Closes(i, c, j);
      }
    } else {
      OthersDoNotChoose(s, step);
    }
  }

  lemma {:induction false} Turns(trace: seq<State>, steps: seq<Step>, a: nat, b: nat, i: nat, u: nat, j: nat, v: nat)
    requires Run(trace, steps) && LivesFrom(trace, a, b, i, u) && LivesFrom(trace, a, b, j, v) && i != j
    requires trace[a].k.table.current == Some(i) && Between(trace, steps, a, b, i)
    ensures trace[b].k.table.current.Some?
    ensures PickCount(trace, steps, a, b, j) == if Dist(i, trace[b].k.table.current.value) >= Dist(i, j) then 1 else 0
    decreases b
  {
    assert Lives(trace[b], i, u) && Lives(trace[b], j, v);
    if a < b {
      Turns(trace, steps, a, b - 1, i, u, j, v);
      assert Lives(trace[b - 1], i, u) && Lives(trace[b - 1], j, v);
      assert !PicksAt(trace, steps, b - 1, i) && !Exits(trace[b - 1], steps[b - 1]);
      At(trace, steps, b - 1, i, u);
      hide Run, Lives, LivesFrom, Inv, Do, Can, Dist, Between;
      TurnStep(trace[b - 1], steps[b - 1], i, u, j, v);
    } else {
      DistIs(i, i);
      DistIs(i, j);
    }
  }

  /** Without exits, between two consecutive choices of one process every other process that lives throughout is
      chosen exactly once. */
  lemma StrictRotation(trace: seq<State>, steps: seq<Step>, a: nat, b: nat, i: nat, u: nat, j: nat, v: nat)
    requires Run(trace, steps) && b < |steps| && LivesFrom(trace, a, b + 1, i, u) && LivesFrom(trace, a, b + 1, j, v)
    requires i != j
    requires trace[a].k.table.current == Some(i) && Between(trace, steps, a, b, i)
    requires PicksAt(trace, steps, b, i) && !Exits(trace[b], steps[b])
    ensures PickCount(trace, steps, a, b, j) == 1
  {
    assert Lives(trace[b], i, u) && Lives(trace[b], j, v);
    Turns(trace, steps, a, b, i, u, j, v);
    At(trace, steps, b, i, u);
    hide Run, Lives, LivesFrom, Inv, Do, Can, Dist, Between, PickCount;
    TurnStep(trace[b], steps[b], i, u, j, v);
  }
}
