/** The steps of a call of block_op keep the invariant, and so does the rest of the kernel. */
module VirtioCalls {
  import opened PageFrame
  import opened Virtqueue
  import opened VirtioSystem
  import opened VirtioInv
  import opened VirtioKeeps

  // ---------------------------------------------------------------- request pages

  lemma TakePage(t: seq<bv8>, req: nat)
    requires WellFormed(t) && FreeWindow(t, req, 1)
    ensures MarkRun(t, req, 1) == t[req := 3] && WellFormed(t[req := 3]) && OnePage(t[req := 3], req) && t[req] == 0
  {
    MarkRunWellFormed(t, req, 1);
    MarkRunBytes(t, req, 1);
    FreeWindowZero(t, req, 1);
    assert MarkRun(t, req, 1) == t[req := 3];
    assert req > 0 ==> Cell(t, req - 1);
  }

  lemma GivePage(t: seq<bv8>, req: nat)
    requires WellFormed(t) && OnePage(t, req)
    ensures FreeFrom(t, req) == Some(t[req := 0]) && WellFormed(t[req := 0])
  {
    FreeFromClears(t, req, req);
    assert ClearRange(t, req, req + 1) == t[req := 0];
    FreeExact(t, req);
  }

  lemma OtherPage(t: seq<bv8>, req: nat, v: bv8, r: nat)
    requires req < |t| && (v == 0 || v == 3) && r != req && OnePage(t, r)
    ensures OnePage(t[req := v], r)
  {
  }

  // ---------------------------------------------------------------- a call begins

  ghost predicate Began(s: State, op: Io, req: nat, t: State) {
    && req !in s.reqs && req < s.room && op.buf + op.size <= |s.mem|
    && (forall id :: id in s.calls ==> Apart(op, s.calls[id].op))
    && OnePage(t.table, req) && (forall r :: r in s.reqs ==> OnePage(t.table, r))
    && var id := s.log.nextId;
    t == s.(table := t.table, reqs := s.reqs[req := Init(op)],
            calls := s.calls[id := Call(op, req, Prepared, Slice(s.mem, op.buf, op.size))],
            log := s.log.(holder := s.log.holder[req := id], nextId := id + 1))
  }

  lemma BeginIs(s: State, op: Io)
    requires Inv(s) && CanBegin(s, op)
    ensures Began(s, op, FirstFit(s.table, 1, 0).value, DoBegin(s, op)) && Shape(DoBegin(s, op))
  {
    hide Rings, Places, Chains, Owners, Lives, WellFormed, MarkRun, FirstFit;
    var req := FirstFit(s.table, 1, 0).value;
    TakePage(s.table, req);
    forall r | r in s.reqs ensures OnePage(s.table, r) && r != req {
      assert Paged(s, s.log.holder[r]);
    }
    forall r | r in s.reqs ensures OnePage(s.table[req := 3], r) {
      OtherPage(s.table, req, 3, r);
    }
  }

  lemma BeginAlike(s: State, op: Io, req: nat, t: State)
    requires Began(s, op, req, t) && (forall id: nat :: id in s.calls ==> Paged(s, id))
    ensures SameHistory(s, t) && SameChains(s.log.chains, t.log.chains) && SameClaims(s, t)
    ensures t.q == s.q && t.log.owner == s.log.owner && s.log.nextId !in s.calls
  {
    assert s.log.nextId in s.calls ==> Paged(s, s.log.nextId);
  }

  lemma BeginLives(s: State, op: Io, req: nat, t: State)
    requires Began(s, op, req, t) && Lives(s) && s.log.nextId !in s.calls
    ensures Lives(t)
  {
    forall h: nat | h in t.log.chains ensures Live(t, h) {
      assert Live(s, h);
    }
  }

  lemma BeginCall(s: State, op: Io, req: nat, t: State, id: nat)
    requires Began(s, op, req, t) && Shape(s) && Shape(t) && s.log.nextId !in s.calls && s.log.nextId !in s.log.moved
    requires id in s.calls ==> Paged(s, id) && Phased(s, id) && Buffered(s, id)
    requires id in t.calls
    ensures Paged(t, id) && Phased(t, id) && Buffered(t, id)
  {
    assert id in s.calls ==> s.calls[id].req != req;
  }

  lemma BeginMisc(s: State, op: Io, req: nat, t: State)
    requires Began(s, op, req, t) && Misc(s) && s.log.nextId !in s.calls
    ensures Misc(t) && s.log.nextId !in s.log.moved
  {
    hide OnePage, Slice;
    forall i: nat, j: nat | i in t.calls && j in t.calls && i != j ensures Apart(t.calls[i].op, t.calls[j].op) {
      BeginApart(s, op, req, t, i, j);
    }
    forall r: nat | r in t.log.holder ensures t.log.holder[r] in t.calls && t.calls[t.log.holder[r]].req == r {
      assert r != req ==> s.log.holder[r] in s.calls;
    }
  }

  lemma BeginApart(s: State, op: Io, req: nat, t: State, i: nat, j: nat)
    requires Began(s, op, req, t) && Misc(s) && i in t.calls && j in t.calls && i != j
    ensures Apart(t.calls[i].op, t.calls[j].op)
  {
    hide OnePage, Slice;
    assert i in s.calls && j in s.calls ==> Apart(s.calls[i].op, s.calls[j].op);
    assert i in s.calls ==> Apart(op, s.calls[i].op);
    assert j in s.calls ==> Apart(op, s.calls[j].op);
  }

  lemma BeginCalls(s: State, op: Io, req: nat, t: State)
    requires Began(s, op, req, t) && Shape(s) && Shape(t) && Calls(s) && s.log.nextId !in s.calls
    requires s.log.nextId !in s.log.moved
    ensures Calls(t)
  {
    hide Began, Phased, Buffered;
    forall id: nat | id in t.calls ensures Paged(t, id) && Phased(t, id) && Buffered(t, id) {
      assert id in s.calls ==> Paged(s, id) && Phased(s, id) && Buffered(s, id);
      BeginCall(s, op, req, t, id);
    }
  }

  lemma BeginKeeps(s: State, op: Io)
    requires Inv(s) && CanBegin(s, op)
    ensures Inv(DoBegin(s, op))
  {
    var t, req := DoBegin(s, op), FirstFit(s.table, 1, 0).value;
    assert forall id: nat :: id in s.calls ==> Paged(s, id);
    hide *;
    Parts(s);
    BeginIs(s, op);
    BeginAlike(s, op, req, t);
    KeepRings(s, t);
    KeepHolds(s, t);
    BeginLives(s, op, req, t);
    BeginMisc(s, op, req, t);
    BeginCalls(s, op, req, t);
    Conclude(t);
  }

  // ---------------------------------------------------------------- a call returns

  /** No chain still to be answered belongs to the call. */
  ghost predicate Quiet(s: State, id: nat) {
    && id in s.calls && !s.calls[id].phase.Claimed?
    && forall h: nat :: h in s.log.chains && s.log.chains[h].call == id ==> !Unanswered(s, h)
  }

  ghost predicate Retired(s: State, id: nat, t: State) {
    && id in s.calls && (forall r :: r in s.reqs && r != s.calls[id].req ==> OnePage(t.table, r))
    && var req := s.calls[id].req;
    t == s.(table := t.table, reqs := s.reqs - {req}, calls := s.calls - {id},
              log := s.log.(holder := s.log.holder - {req}))
  }

  /** The page is given back without a complaint from the allocator. */
  lemma RetireIs(s: State, id: nat)
    requires Inv(s) && id in s.calls
    ensures FreeFrom(s.table, s.calls[id].req).Some?
    ensures Retired(s, id, Retire(s, id)) && Shape(Retire(s, id))
  {
    hide Rings, Places, Chains, Owners, Lives, WellFormed, FreeFrom;
    var req := s.calls[id].req;
    assert Paged(s, id);
    GivePage(s.table, req);
    forall r | r in s.reqs && r != req ensures OnePage(s.table[req := 0], r) {
      assert Paged(s, s.log.holder[r]);
      OtherPage(s.table, req, 0, r);
    }
  }

  lemma RetireAlike(s: State, id: nat, t: State)
    requires Retired(s, id, t) && Quiet(s, id)
    ensures SameHistory(s, t) && SameChains(s.log.chains, t.log.chains) && SameClaims(s, t)
    ensures t.q == s.q && t.log.owner == s.log.owner
  {
  }

  lemma RetireLives(s: State, id: nat, t: State)
    requires Retired(s, id, t) && Quiet(s, id) && Lives(s) && Shape(s) && Calls(s)
    ensures Lives(t)
  {
    assert Paged(s, id);
    forall h: nat | h in t.log.chains ensures Live(t, h) {
      assert Live(s, h);
      if Unanswered(s, h) {
        assert Paged(s, s.log.chains[h].call);
      }
    }
  }

  lemma RetireCalls(s: State, id: nat, t: State)
    requires Retired(s, id, t) && Shape(s) && Shape(t) && Calls(s) && Misc(s)
    ensures Calls(t) && Misc(t)
  {
    assert Paged(s, id);
    forall x: nat | x in t.calls ensures Paged(t, x) && Phased(t, x) && Buffered(t, x) {
      assert Paged(s, x) && Phased(s, x) && Buffered(s, x);
    }
  }

  lemma RetireKeeps(s: State, id: nat)
    requires Inv(s) && Quiet(s, id)
    ensures Inv(Retire(s, id))
  {
    var t := Retire(s, id);
    hide *;
    Parts(s);
    assert id in s.calls by { RetireQuiet(s, id); }
    RetireIs(s, id);
    RetireAlike(s, id, t);
    KeepRings(s, t);
    KeepHolds(s, t);
    RetireLives(s, id, t);
    RetireCalls(s, id, t);
    Conclude(t);
  }

  lemma RetireQuiet(s: State, id: nat)
    requires Quiet(s, id)
    ensures id in s.calls
  {
  }

  /** Once the status has changed, the device is done with the request. */
  lemma FinishQuiet(s: State, id: nat)
    requires Inv(s) && CanFinish(s, id)
    ensures Quiet(s, id)
  {
    forall h: nat | h in s.log.chains && s.log.chains[h].call == id ensures !Unanswered(s, h) {
      assert Live(s, h);
    }
  }

  lemma FinishKeeps(s: State, id: nat)
    requires Inv(s) && CanFinish(s, id)
    ensures Inv(Retire(s, id))
  {
    FinishQuiet(s, id);
    hide *;
    RetireKeeps(s, id);
  }

  // ---------------------------------------------------------------- a call takes descriptors

  lemma PreparedQuiet(s: State, id: nat)
    requires Inv(s) && id in s.calls && s.calls[id].phase.Prepared?
    ensures Quiet(s, id)
  {
    forall h: nat | h in s.log.chains && s.log.chains[h].call == id ensures !Unanswered(s, h) {
      assert Live(s, h);
    }
  }

  ghost predicate Took(s: State, id: nat, a: nat, b: nat, c: nat, t: State) {
    && Shape(s) && CanClaim(s, id) && Distinct(a, b, c) && s.q.free[a] && s.q.free[b] && s.q.free[c]
    && t == s.(q := s.q.(free := TakeThree(s.q.free, a, b, c)),
               calls := s.calls[id := s.calls[id].(phase := Claimed(a, b, c))],
               log := s.log.(owner := Own(s.log.owner, a, b, c, ByCall(id))))
  }

  lemma ClaimHolds(s: State, id: nat, a: nat, b: nat, c: nat, t: State)
    requires Took(s, id, a, b, c, t) && Chains(s) && Owners(s)
    ensures Shape(t) && Chains(t) && Owners(t)
  {
    assert Owned(s, a) && Owned(s, b) && Owned(s, c);
    forall h: nat | h in t.log.chains ensures Held(t, h) {
      assert Held(s, h);
    }
    forall d: nat | d < RING ensures Owned(t, d) {
      assert Owned(s, d);
    }
  }

  lemma ClaimCall(s: State, id: nat, a: nat, b: nat, c: nat, t: State, x: nat)
    requires Took(s, id, a, b, c, t) && Owned(s, a) && Owned(s, b) && Owned(s, c) && Shape(t)
    requires x in s.calls && Paged(s, x) && Phased(s, x) && Buffered(s, x)
    ensures Paged(t, x) && Phased(t, x) && Buffered(t, x)
  {
    hide TakeThree;
  }

  lemma ClaimLives(s: State, id: nat, a: nat, b: nat, c: nat, t: State)
    requires Took(s, id, a, b, c, t) && Lives(s) && Misc(s)
    ensures Lives(t) && Misc(t)
  {
    hide TakeThree, Own;
    forall h: nat | h in t.log.chains ensures Live(t, h) {
      assert Live(s, h);
    }
  }

  lemma ClaimCalls(s: State, id: nat, a: nat, b: nat, c: nat, t: State)
    requires Took(s, id, a, b, c, t) && Owners(s) && Calls(s) && Shape(t)
    ensures Calls(t)
  {
    assert Owned(s, a) && Owned(s, b) && Owned(s, c);
    hide TakeThree, Own, Owned, Paged, Phased, Buffered;
    forall x: nat | x in t.calls ensures Paged(t, x) && Phased(t, x) && Buffered(t, x) {
      assert Paged(s, x) && Phased(s, x) && Buffered(s, x);
      ClaimCall(s, id, a, b, c, t, x);
    }
  }

  lemma ClaimIs(s: State, id: nat)
    requires Inv(s) && CanClaim(s, id) && ThreeFree(s.q.free).Some?
    ensures var d := ThreeFree(s.q.free).value; Took(s, id, d.0, d.1, d.2, DoClaim(s, id))
  {
  }

  lemma ClaimAlike(s: State, id: nat, a: nat, b: nat, c: nat, t: State)
    requires Took(s, id, a, b, c, t)
    ensures SameHistory(s, t)
  {
  }

  lemma ClaimKeeps(s: State, id: nat)
    requires Inv(s) && CanClaim(s, id)
    ensures Inv(DoClaim(s, id))
  {
    var t := DoClaim(s, id);
    if ThreeFree(s.q.free).None? {
      PreparedQuiet(s, id);
      assert t == Retire(s, id);
      hide *;
      RetireKeeps(s, id);
    } else {
      var d := ThreeFree(s.q.free).value;
      hide *;
      Parts(s);
      ClaimIs(s, id);
      ClaimHolds(s, id, d.0, d.1, d.2, t);
      ClaimAlike(s, id, d.0, d.1, d.2, t);
      KeepRings(s, t);
      ClaimLives(s, id, d.0, d.1, d.2, t);
      ClaimCalls(s, id, d.0, d.1, d.2, t);
      Conclude(t);
    }
  }

  // ---------------------------------------------------------------- a call publishes its chain

  ghost predicate Submitted(s: State, id: nat, t: State) {
    && Shape(s) && CanSubmit(s, id)
    && var c := s.calls[id];
    && var Claimed(a, b, d) := c.phase;
    && Distinct(a, b, d) && s.log.owner[a] == s.log.owner[b] == s.log.owner[d] == ByCall(id) && a !in s.log.chains
    && t == DoSubmit(s, id)
  }

  lemma SubmitIs(s: State, id: nat)
    requires Inv(s) && CanSubmit(s, id)
    ensures Submitted(s, id, DoSubmit(s, id))
  {
    assert Paged(s, id) && Phased(s, id);
    var a := s.calls[id].phase.d0;
    assert a in s.log.chains ==> Held(s, a);
  }

  lemma SubmitRings(s: State, id: nat, t: State)
    requires Submitted(s, id, t) && Indices(s) && Rings(s) && Places(s) && |s.log.submitted| - s.log.taken <= 2
    ensures Shape(t) && Indices(t) && Rings(t) && Places(t)
  {
    var n := |s.log.submitted|;
    WrapSlot(n);
    forall k: nat | t.log.taken <= k < |t.log.submitted| ensures QueuedAt(t, k) {
      if k < n {
        assert QueuedAt(s, k);
        SlotsDiffer(k, n);
      }
    }
    forall k: nat | t.log.acked <= k < |t.log.returned| ensures ReturnedAt(t, k) {
      assert ReturnedAt(s, k);
    }
    forall g: nat | g in t.log.chains ensures Placed(t, g) {
      assert g in s.log.chains ==> Placed(s, g);
    }
  }

  lemma SubmitHeld(s: State, id: nat, t: State, g: nat)
    requires Submitted(s, id, t) && Shape(t) && g in t.log.chains && (g in s.log.chains ==> Held(s, g))
    ensures Held(t, g)
  {
  }

  lemma SubmitOwned(s: State, id: nat, t: State, d: nat)
    requires Submitted(s, id, t) && Shape(t) && d < RING && Owned(s, d)
    ensures Owned(t, d)
  {
  }

  lemma SubmitHolds(s: State, id: nat, t: State)
    requires Submitted(s, id, t) && Chains(s) && Owners(s) && Shape(t)
    ensures Chains(t) && Owners(t)
  {
    assert Shape(s);
    hide Submitted, Held, Owned;
    forall g: nat | g in t.log.chains ensures Held(t, g) {
      assert g in s.log.chains ==> Held(s, g);
      SubmitHeld(s, id, t, g);
    }
    forall d: nat | d < RING ensures Owned(t, d) {
      assert Owned(s, d);
      SubmitOwned(s, id, t, d);
    }
  }

  /** A submission as the calls see it. */
  ghost predicate Joins(s: State, id: nat, t: State) {
    && id in s.calls && s.calls[id].phase.Claimed?
    && var c := s.calls[id];
    && var a := c.phase.d0;
    && a !in s.log.chains && a in t.log.chains && (forall g: nat :: g in t.log.chains <==> g in s.log.chains || g == a)
    && (forall g: nat :: g in s.log.chains ==> t.log.chains[g] == s.log.chains[g])
    && t.log.chains[a].call == id && t.log.chains[a].op == c.op && t.log.chains[a].req == c.req
    && t.log.chains[a].place.Queued?
    && t.calls == s.calls[id := c.(phase := Waiting(a))]
    && t.dev == s.dev && t.reqs == s.reqs && t.mem == s.mem && t.table == s.table && t.room == s.room
    && t.log.holder == s.log.holder && t.log.moved == s.log.moved && t.log.nextId == s.log.nextId
    && a !in s.dev.jobs
  }

  lemma SubmitJoins(s: State, id: nat, t: State)
    requires Submitted(s, id, t) && Rings(s)
    ensures Joins(s, id, t)
  {
  }

  lemma SubmitLives(s: State, id: nat, t: State)
    requires Joins(s, id, t) && Lives(s) && Shape(s) && Paged(s, id) && Phased(s, id) && Misc(s)
    ensures Lives(t) && Misc(t)
  {
    forall g: nat | g in t.log.chains ensures Live(t, g) {
      assert g in s.log.chains ==> Live(s, g);
    }
  }

  lemma SubmitCalls(s: State, id: nat, t: State)
    requires Submitted(s, id, t) && Joins(s, id, t) && Calls(s) && Shape(t)
    ensures Calls(t)
  {
    hide Publish;
    forall x: nat | x in t.calls ensures Paged(t, x) && Phased(t, x) && Buffered(t, x) {
      assert Paged(s, x) && Phased(s, x) && Buffered(s, x);
    }
  }

  lemma SubmitKeeps(s: State, id: nat)
    requires Inv(s) && CanSubmit(s, id)
    ensures Inv(DoSubmit(s, id))
  {
    var t := DoSubmit(s, id);
    assert Paged(s, id) && Phased(s, id);
    hide *;
    Parts(s);
    Windows(s);
    SubmitIs(s, id);
    SubmitRings(s, id, t);
    SubmitHolds(s, id, t);
    SubmitJoins(s, id, t);
    SubmitLives(s, id, t);
    SubmitCalls(s, id, t);
    Conclude(t);
  }

  // ---------------------------------------------------------------- everything else, and whole runs

  lemma OtherKeeps(s: State, mem: seq<byte>, table: seq<bv8>)
    requires Inv(s) && CanOther(s, mem, table)
    ensures Inv(s.(mem := mem, table := table))
  {
    var t := s.(mem := mem, table := table);
    hide WellFormed, Slice;
    KeepRings(s, t);
    KeepHolds(s, t);
    OtherCalls(s, t);
    hide *;
    Conclude(t);
  }

  lemma OtherLives(s: State, t: State)
    requires Inv(s) && CanOther(s, t.mem, t.table) && t == s.(mem := t.mem, table := t.table)
    ensures Lives(t)
  {
    hide WellFormed, Slice, Rings, Places, Chains, Owners, CanOther;
    forall h: nat | h in t.log.chains ensures Live(t, h) {
      assert Live(s, h);
    }
  }

  lemma OtherCalls(s: State, t: State)
    requires Inv(s) && CanOther(s, t.mem, t.table) && t == s.(mem := t.mem, table := t.table)
    ensures Lives(t) && Shape(t) && Calls(t) && Misc(t)
  {
    hide WellFormed, Slice, Rings, Places, Chains, Owners;
    OtherLives(s, t);
    forall id: nat | id in t.calls ensures Paged(t, id) && Phased(t, id) && Buffered(t, id) {
      assert Paged(s, id) && Phased(s, id) && Buffered(s, id);
    }
  }

  lemma StepKeeps(s: State, step: Step)
    requires Inv(s) && Can(s, step)
    ensures Inv(Do(s, step))
  {
    hide Inv;
    match step
    case Begin(op) => BeginKeeps(s, op);
    case Claim(id) => ClaimKeeps(s, id);
    case Submit(id) => SubmitKeeps(s, id);
    case Ack => AckKeeps(s);
    case Finish(id) => FinishKeeps(s, id);
    case Fetch => FetchKeeps(s);
    case Transfer(h, status, bytes) => TransferKeeps(s, h, status, bytes);
    case Answer(h) => AnswerKeeps(s, h);
    case Push(h) => PushKeeps(s, h);
    case Other(mem, table) => OtherKeeps(s, mem, table);
  }

  /** The invariant holds in every state of every run. */
  lemma {:induction false} AlwaysInv(trace: seq<State>, steps: seq<Step>, i: nat)
    requires Run(trace, steps) && i < |trace|
    ensures Inv(trace[i])
    decreases i
  {
    if i == 0 {
      StartInv(trace[0]);
    } else {
      AlwaysInv(trace, steps, i - 1);
      assert Follows(trace, steps, i - 1);
      StepKeeps(trace[i - 1], steps[i - 1]);
    }
  }
}
