/** Every step keeps the invariant. */
module VirtioKeeps {
  import opened PageFrame
  import opened Virtqueue
  import opened VirtioSystem
  import opened VirtioInv

  // ---------------------------------------------------------------- counting descriptors

  lemma {:induction false} SubsetCount(a: set<nat>, b: set<nat>)
    requires a <= b
    ensures |a| <= |b|
    decreases a
  {
    if a != {} {
      var x :| x in a;
      SubsetCount(a - {x}, b - {x});
    }
  }

  ghost function UpTo(n: nat): (r: set<nat>)
    ensures |r| == n && forall x: nat :: x in r <==> x < n
  {
    if n == 0 then {} else UpTo(n - 1) + {n - 1}
  }

  ghost predicate OwnsThree(owner: seq<Owner>, who: Owner, a: nat, b: nat, c: nat) {
    |owner| == RING && Distinct(a, b, c) && owner[a] == who && owner[b] == who && owner[c] == who
  }

  ghost function HeldBy(owner: seq<Owner>, who: Owner): (r: set<nat>) {
    set i: nat | i < |owner| && owner[i] == who
  }

  lemma HoldsThree(owner: seq<Owner>, who: Owner, a: nat, b: nat, c: nat)
    requires OwnsThree(owner, who, a, b, c)
    ensures |HeldBy(owner, who)| >= 3
  {
    assert |{a, b, c}| == 3;
    assert {a, b, c} <= HeldBy(owner, who);
    SubsetCount({a, b, c}, HeldBy(owner, who));
  }

  lemma HeldApart(owner: seq<Owner>, x: Owner, y: Owner)
    requires |owner| == RING && x != y
    ensures HeldBy(owner, x) !! HeldBy(owner, y)
  {
  }

  lemma HeldInside(owner: seq<Owner>, x: Owner, y: Owner, z: Owner)
    requires |owner| == RING
    ensures HeldBy(owner, x) + HeldBy(owner, y) + HeldBy(owner, z) <= UpTo(RING)
  {
  }

  lemma ThreeApart(a: set<nat>, b: set<nat>, c: set<nat>)
    requires a !! b && a !! c && b !! c
    ensures |a + b + c| == |a| + |b| + |c|
  {
    assert |a + b| == |a| + |b|;
    assert (a + b) !! c;
  }

  /** Eight descriptors cannot serve three holders of three each. */
  lemma NoThreeHolders(owner: seq<Owner>, x: Owner, y: Owner, z: Owner)
    requires |owner| == RING && x != y && x != z && y != z
    requires |HeldBy(owner, x)| >= 3 && |HeldBy(owner, y)| >= 3
    ensures |HeldBy(owner, z)| < 3
  {
    hide HeldBy, UpTo;
    var a, b, c := HeldBy(owner, x), HeldBy(owner, y), HeldBy(owner, z);
    HeldApart(owner, x, y);
    HeldApart(owner, x, z);
    HeldApart(owner, y, z);
    ThreeApart(a, b, c);
    HeldInside(owner, x, y, z);
    SubsetCount(a + b + c, UpTo(RING));
  }

  lemma NoThreeChains(s: State, x: nat, y: nat, z: nat)
    requires Shape(s) && Chains(s) && x in s.log.chains && y in s.log.chains && z in s.log.chains
    ensures x == y || x == z || y == z
  {
    assert Held(s, x) && Held(s, y) && Held(s, z);
    HoldsThree(s.log.owner, ByChain(x), x, s.log.chains[x].d1, s.log.chains[x].d2);
    HoldsThree(s.log.owner, ByChain(y), y, s.log.chains[y].d1, s.log.chains[y].d2);
    HoldsThree(s.log.owner, ByChain(z), z, s.log.chains[z].d1, s.log.chains[z].d2);
    if x != y && x != z && y != z {
      NoThreeHolders(s.log.owner, ByChain(x), ByChain(y), ByChain(z));
    }
  }

  /** Neither side's window is ever longer than two entries. */
  lemma Windows(s: State)
    requires Inv(s)
    ensures |s.log.submitted| - s.log.taken <= 2 && |s.log.returned| - s.log.acked <= 2
  {
    hide Owners, Lives, Calls, Misc, Places, Held;
    var t, a := s.log.taken, s.log.acked;
    if |s.log.submitted| - t > 2 {
      assert QueuedAt(s, t) && QueuedAt(s, t + 1) && QueuedAt(s, t + 2);
      NoThreeChains(s, s.log.submitted[t], s.log.submitted[t + 1], s.log.submitted[t + 2]);
    }
    if |s.log.returned| - a > 2 {
      assert ReturnedAt(s, a) && ReturnedAt(s, a + 1) && ReturnedAt(s, a + 2);
      NoThreeChains(s, s.log.returned[a], s.log.returned[a + 1], s.log.returned[a + 2]);
    }
  }

  lemma WrapDiffers(a: nat, b: nat)
    requires a <= b < a + WRAP
    ensures a % WRAP == b % WRAP <==> a == b
  {
  }

  lemma WrapSlot(a: nat)
    ensures (a % WRAP) % RING == a % RING && (a % WRAP + 1) % WRAP == (a + 1) % WRAP
  {
  }

  lemma SlotsDiffer(a: nat, b: nat)
    requires a < b < a + RING
    ensures a % RING != b % RING
  {
  }

  // ---------------------------------------------------------------- what a step leaves alone

  /** Chains change at most their place. */
  ghost predicate SameChains(a: map<nat, Chain>, b: map<nat, Chain>) {
    && (forall h: nat :: h in a <==> h in b)
    && (forall h: nat :: h in a ==> SameChain(a[h], b[h]))
  }

  ghost predicate SameChain(a: Chain, b: Chain) {
    b == a.(place := b.place)
  }

  ghost predicate SameHistory(s: State, t: State) {
    && t.log.submitted == s.log.submitted && t.log.taken == s.log.taken && t.log.returned == s.log.returned
    && t.log.acked == s.log.acked
    && t.log.chains == s.log.chains && t.dev.seen == s.dev.seen
    && t.q.avail == s.q.avail && t.q.used == s.q.used
    && t.q.availIdx == s.q.availIdx && t.q.usedIdx == s.q.usedIdx && t.q.ack == s.q.ack
    && forall h: nat :: h in t.dev.jobs <==> h in s.dev.jobs
  }

  lemma KeepRings(s: State, t: State)
    requires Inv(s) && Shape(t) && SameHistory(s, t)
    ensures Indices(t) && Rings(t) && Places(t)
  {
    forall k: nat | t.log.taken <= k < |t.log.submitted| ensures QueuedAt(t, k) {
      assert QueuedAt(s, k);
    }
    forall k: nat | t.log.acked <= k < |t.log.returned| ensures ReturnedAt(t, k) {
      assert ReturnedAt(s, k);
    }
    forall h: nat | h in t.log.chains ensures Placed(t, h) {
      assert Placed(s, h);
    }
  }

  ghost predicate SameClaims(s: State, t: State) {
    forall id: nat :: id in s.calls && s.calls[id].phase.Claimed? ==>
      id in t.calls && t.calls[id].phase == s.calls[id].phase
  }

  lemma KeepHolds(s: State, t: State)
    requires Inv(s) && Shape(t) && SameChains(s.log.chains, t.log.chains) && SameClaims(s, t)
    requires t.q.desc == s.q.desc && t.q.free == s.q.free && t.log.owner == s.log.owner
    ensures Chains(t) && Owners(t)
  {
    forall h: nat | h in t.log.chains ensures Held(t, h) {
      assert Held(s, h) && SameChain(s.log.chains[h], t.log.chains[h]);
    }
    forall d: nat | d < RING ensures Owned(t, d) {
      assert Owned(s, d);
      if s.log.owner[d].ByChain? {
        assert SameChain(s.log.chains[s.log.owner[d].head], t.log.chains[s.log.owner[d].head]);
      }
    }
  }

  ghost predicate SameCalls(s: State, t: State) {
    && t.calls == s.calls && t.table == s.table && t.room == s.room && t.log.owner == s.log.owner
    && t.log.holder == s.log.holder && t.log.nextId == s.log.nextId
  }

  /** No request, buffer or outcome changes, and no chain gains or loses its last access. */
  ghost predicate SameProgress(s: State, t: State) {
    && SameChains(s.log.chains, t.log.chains)
    && t.reqs == s.reqs && t.mem == s.mem && t.log.moved == s.log.moved
    && forall h: nat :: h in s.log.chains ==> SameStage(s, t, h)
  }

  ghost predicate SameStage(s: State, t: State, h: nat)
    requires h in s.log.chains && h in t.log.chains
  {
    && (Unanswered(t, h) <==> Unanswered(s, h))
    && (h in t.dev.jobs && t.dev.jobs[h].Moved? <==> h in s.dev.jobs && s.dev.jobs[h].Moved?)
    && (h in t.dev.jobs && t.dev.jobs[h].Moved? ==> t.dev.jobs[h] == s.dev.jobs[h])
  }

  lemma KeepCalls(s: State, t: State)
    requires Inv(s) && Shape(t) && SameCalls(s, t) && SameProgress(s, t)
    ensures Lives(t) && Calls(t) && Misc(t)
  {
    forall h: nat | h in t.log.chains ensures Live(t, h) {
      assert Live(s, h) && SameChain(s.log.chains[h], t.log.chains[h]) && SameStage(s, t, h);
    }
    forall id: nat | id in t.calls ensures Paged(t, id) && Phased(t, id) && Buffered(t, id) {
      assert Paged(s, id) && Phased(s, id) && Buffered(s, id);
      if s.calls[id].phase.Waiting? && s.calls[id].phase.head in s.log.chains {
        var h := s.calls[id].phase.head;
        assert SameChain(s.log.chains[h], t.log.chains[h]) && SameStage(s, t, h);
      }
    }
  }

  lemma Conclude(t: State)
    requires Shape(t) && Indices(t) && Rings(t) && Places(t) && Chains(t) && Owners(t) && Lives(t) && Calls(t)
    requires Misc(t)
    ensures Inv(t)
  {
  }

  lemma Parts(s: State)
    requires Inv(s)
    ensures Shape(s) && Indices(s) && Rings(s) && Places(s) && Chains(s) && Owners(s) && Lives(s) && Calls(s) && Misc(s)
  {
  }

  // ---------------------------------------------------------------- the start

  lemma StartInv(s: State)
    requires Start(s)
    ensures Inv(s)
  {
  }

  // ---------------------------------------------------------------- the device fetches

  /** The device takes the oldest submission it has not seen. */
  lemma FetchHead(s: State) returns (h: nat)
    requires Inv(s) && CanFetch(s)
    ensures s.log.taken < |s.log.submitted| && h == s.log.submitted[s.log.taken] == s.q.avail[s.dev.seen % RING]
    ensures IsAt(s.log.chains, h, Queued(s.log.taken)) && h !in s.dev.jobs
  {
    Windows(s);
    WrapDiffers(s.log.taken, |s.log.submitted|);
    WrapSlot(s.log.taken);
    h := s.log.submitted[s.log.taken];
    assert QueuedAt(s, s.log.taken);
  }

  lemma FetchRings(s: State, h: nat, t: State)
    requires Shape(s) && Indices(s) && Rings(s) && Places(s) && CanFetch(s) && t == DoFetch(s)
    requires s.log.taken < |s.log.submitted| && h == s.log.submitted[s.log.taken] == s.q.avail[s.dev.seen % RING]
    requires IsAt(s.log.chains, h, Queued(s.log.taken)) && h !in s.dev.jobs
    ensures Shape(t) && Indices(t) && Rings(t) && Places(t)
  {
    WrapSlot(s.log.taken);
    forall k: nat | t.log.taken <= k < |t.log.submitted| ensures QueuedAt(t, k) {
      assert QueuedAt(s, k);
    }
    forall k: nat | t.log.acked <= k < |t.log.returned| ensures ReturnedAt(t, k) {
      assert ReturnedAt(s, k);
    }
    forall g: nat | g in t.log.chains ensures Placed(t, g) {
      assert Placed(s, g);
    }
  }

  lemma FetchAlike(s: State, h: nat, t: State)
    requires Places(s) && CanFetch(s) && t == DoFetch(s) && h == s.q.avail[s.dev.seen % RING]
    requires IsAt(s.log.chains, h, Queued(s.log.taken)) && h !in s.dev.jobs
    ensures SameCalls(s, t) && SameProgress(s, t) && SameClaims(s, t)
  {
  }

  lemma FetchKeeps(s: State)
    requires Inv(s) && CanFetch(s)
    ensures Inv(DoFetch(s))
  {
    var t := DoFetch(s);
    assert t.q == s.q && t.log.owner == s.log.owner;
    hide *;
    Parts(s);
    var h := FetchHead(s);
    FetchRings(s, h, t);
    FetchAlike(s, h, t);
    KeepHolds(s, t);
    KeepCalls(s, t);
    Conclude(t);
  }

  // ---------------------------------------------------------------- the device returns a head

  lemma PushRings(s: State, h: nat, t: State)
    requires Shape(s) && Indices(s) && Rings(s) && Places(s) && CanPush(s, h) && t == DoPush(s, h)
    requires |s.log.returned| - s.log.acked <= 2
    ensures Shape(t) && Indices(t) && Rings(t) && Places(t)
  {
    var n := |s.log.returned|;
    WrapSlot(n);
    forall k: nat | t.log.taken <= k < |t.log.submitted| ensures QueuedAt(t, k) {
      assert QueuedAt(s, k);
    }
    forall k: nat | t.log.acked <= k < |t.log.returned| ensures ReturnedAt(t, k) {
      if k < n {
        assert ReturnedAt(s, k);
        SlotsDiffer(k, n);
      }
    }
    forall g: nat | g in t.log.chains ensures Placed(t, g) {
      assert Placed(s, g);
    }
  }

  lemma PushAlike(s: State, h: nat, t: State)
    requires Shape(s) && Rings(s) && CanPush(s, h) && t == DoPush(s, h)
    ensures SameCalls(s, t) && SameProgress(s, t) && SameClaims(s, t)
    ensures t.q.desc == s.q.desc && t.q.free == s.q.free
  {
  }

  lemma PushKeeps(s: State, h: nat)
    requires Inv(s) && CanPush(s, h)
    ensures Inv(DoPush(s, h))
  {
    var t := DoPush(s, h);
    hide *;
    Parts(s);
    Windows(s);
    PushRings(s, h, t);
    PushAlike(s, h, t);
    KeepHolds(s, t);
    KeepCalls(s, t);
    Conclude(t);
  }

  // ---------------------------------------------------------------- the device works on a request

  /** As long as a chain is unanswered, the device can follow it and finds the request the call wrote. */
  lemma DeviceSees(s: State, h: nat)
    requires Inv(s) && h in s.log.chains && Unanswered(s, h)
    ensures Visible(s, h) && s.q.desc[h].addr.req == s.log.chains[h].req
    ensures RequestOf(s, h) == Init(s.log.chains[h].op)
    ensures DataOf(s, h) == DataDesc(s.log.chains[h].op, s.log.chains[h].d2)
  {
    assert Held(s, h) && Live(s, h);
    assert Buffered(s, s.log.chains[h].call);
  }

  lemma SpliceSame(m: seq<byte>, at: nat, b: seq<byte>)
    requires at + |b| <= |m|
    ensures Slice(Splice(m, at, b), at, |b|) == b
  {
  }

  lemma SpliceApart(m: seq<byte>, at: nat, b: seq<byte>, x: nat, n: nat)
    requires x + n <= at || at + |b| <= x
    ensures Slice(Splice(m, at, b), x, n) == Slice(m, x, n)
  {
  }

  /** A transfer as seen by the call it serves. */
  ghost predicate Transferred(s: State, h: nat, status: nat, bytes: seq<byte>, t: State) {
    && h in s.log.chains && h in s.dev.jobs && s.dev.jobs[h].Fetched? && status != PENDING
    && var c := s.log.chains[h];
    && c.op.buf + c.op.size <= |s.mem| && |bytes| == c.op.size
    && t == s.(dev := s.dev.(jobs := s.dev.jobs[h := Moved(status)]), mem := t.mem, disk := t.disk,
               log := s.log.(moved := s.log.moved[c.call := Effect(status, bytes)]))
    && t.mem == (if c.op.write then s.mem else Splice(s.mem, c.op.buf, bytes))
    && (status == 0 && c.op.write ==> bytes == Slice(s.mem, c.op.buf, c.op.size))
  }

  lemma TransferIs(s: State, h: nat, status: nat, bytes: seq<byte>)
    requires Inv(s) && CanTransfer(s, h, status, bytes)
    ensures Transferred(s, h, status, bytes, DoTransfer(s, h, status, bytes))
  {
    assert IsAt(s.log.chains, h, Working);
    hide Chains, Owners, Places, Misc, Splice;
    DeviceSees(s, h);
    assert Live(s, h);
    assert Buffered(s, s.log.chains[h].call);
  }

  lemma TransferLives(s: State, h: nat, status: nat, bytes: seq<byte>, t: State)
    requires Transferred(s, h, status, bytes, t) && Lives(s) && Places(s)
    ensures Lives(t)
  {
    assert Live(s, h);
    forall g: nat | g in t.log.chains ensures Live(t, g) {
      assert Live(s, g) && Placed(s, h);
    }
  }

  lemma TransferBuffer(s: State, h: nat, status: nat, bytes: seq<byte>, t: State, id: nat)
    requires Transferred(s, h, status, bytes, t) && id in s.calls && Buffered(s, id)
    requires s.log.chains[h].call in s.calls && s.calls[s.log.chains[h].call].op == s.log.chains[h].op
    requires id != s.log.chains[h].call ==> Apart(s.calls[id].op, s.log.chains[h].op)
    ensures Buffered(t, id)
  {
    var op, c := s.log.chains[h].op, s.calls[id];
    hide Splice, Slice;
    if op.write {
    } else if id == s.log.chains[h].call {
      SpliceSame(s.mem, op.buf, bytes);
    } else {
      SpliceApart(s.mem, op.buf, bytes, c.op.buf, c.op.size);
    }
  }

  lemma TransferPhase(s: State, h: nat, status: nat, bytes: seq<byte>, t: State, id: nat)
    requires Transferred(s, h, status, bytes, t) && Shape(s) && Shape(t) && id in s.calls && Paged(s, id)
    requires Phased(s, id)
    requires s.log.chains[h].call in s.calls && s.calls[s.log.chains[h].call].phase == Waiting(h)
    requires s.log.chains[h].req in s.reqs && s.calls[s.log.chains[h].call].req == s.log.chains[h].req
    requires s.reqs[s.log.chains[h].req].status == PENDING
    ensures Paged(t, id) && Phased(t, id)
  {
  }

  lemma TransferCalls(s: State, h: nat, status: nat, bytes: seq<byte>, t: State)
    requires Transferred(s, h, status, bytes, t) && Shape(s) && Shape(t) && Lives(s) && Calls(s) && Misc(s)
    requires Unanswered(s, h)
    ensures Calls(t) && Misc(t)
  {
    assert Live(s, h);
    var x := s.log.chains[h].call;
    forall id: nat | id in t.calls ensures Paged(t, id) && Phased(t, id) {
      assert Paged(s, id) && Phased(s, id);
      TransferPhase(s, h, status, bytes, t, id);
    }
    forall id: nat | id in t.calls ensures Buffered(t, id) {
      assert Buffered(s, id);
      TransferBuffer(s, h, status, bytes, t, id);
    }
  }

  lemma TransferAlike(s: State, h: nat, status: nat, bytes: seq<byte>, t: State)
    requires Transferred(s, h, status, bytes, t) && Shape(s)
    ensures Shape(t) && SameHistory(s, t) && SameChains(s.log.chains, t.log.chains) && SameClaims(s, t)
    ensures t.q == s.q && t.log.owner == s.log.owner && Unanswered(s, h)
  {
  }

  lemma TransferKeeps(s: State, h: nat, status: nat, bytes: seq<byte>)
    requires Inv(s) && CanTransfer(s, h, status, bytes)
    ensures Inv(DoTransfer(s, h, status, bytes))
  {
    var t := DoTransfer(s, h, status, bytes);
    hide *;
    Parts(s);
    TransferIs(s, h, status, bytes);
    TransferAlike(s, h, status, bytes, t);
    KeepRings(s, t);
    KeepHolds(s, t);
    TransferLives(s, h, status, bytes, t);
    TransferCalls(s, h, status, bytes, t);
    Conclude(t);
  }

  /** The status byte is written to the page of the chain's own call. */
  ghost predicate Answers(s: State, h: nat, t: State) {
    && IsAt(s.log.chains, h, Working) && h in s.dev.jobs && s.dev.jobs[h].Moved? && s.log.chains[h].req in s.reqs
    && var req := s.log.chains[h].req;
    t == s.(dev := s.dev.(jobs := s.dev.jobs[h := Answered]),
            reqs := s.reqs[req := s.reqs[req].(status := s.dev.jobs[h].status)])
  }

  lemma AnswerIs(s: State, h: nat)
    requires Inv(s) && CanAnswer(s, h)
    ensures Answers(s, h, DoAnswer(s, h)) && Unanswered(s, h)
  {
    assert IsAt(s.log.chains, h, Working);
    DeviceSees(s, h);
  }

  lemma AnswerAlike(s: State, h: nat, t: State)
    requires Answers(s, h, t) && Shape(s)
    ensures Shape(t) && SameHistory(s, t) && SameChains(s.log.chains, t.log.chains) && SameClaims(s, t)
    ensures t.q == s.q && t.log.owner == s.log.owner
  {
  }

  lemma AnswerLives(s: State, h: nat, t: State)
    requires Answers(s, h, t) && Unanswered(s, h) && Lives(s) && Shape(s) && Calls(s)
    ensures Lives(t)
  {
    assert Live(s, h) && Paged(s, s.log.chains[h].call);
    forall g: nat | g in t.log.chains ensures Live(t, g) {
      assert Live(s, g);
      if g != h && Unanswered(s, g) {
        assert Paged(s, s.log.chains[g].call);
      }
    }
  }

  lemma AnswerCalls(s: State, h: nat, t: State)
    requires Answers(s, h, t) && Unanswered(s, h) && Lives(s) && Shape(s) && Calls(s) && Misc(s) && Shape(t)
    ensures Calls(t) && Misc(t)
  {
    assert Live(s, h) && Paged(s, s.log.chains[h].call);
    forall id: nat | id in t.calls ensures Paged(t, id) && Phased(t, id) && Buffered(t, id) {
      assert Paged(s, id) && Phased(s, id) && Buffered(s, id);
    }
  }

  lemma AnswerKeeps(s: State, h: nat)
    requires Inv(s) && CanAnswer(s, h)
    ensures Inv(DoAnswer(s, h))
  {
    var t := DoAnswer(s, h);
    hide *;
    Parts(s);
    AnswerIs(s, h);
    AnswerAlike(s, h, t);
    KeepRings(s, t);
    KeepHolds(s, t);
    AnswerLives(s, h, t);
    AnswerCalls(s, h, t);
    Conclude(t);
  }

  // ---------------------------------------------------------------- the driver consumes a used entry

  /** The oldest unconsumed return: exactly its three descriptors become free. */
  ghost predicate Acked(s: State, h: nat, t: State) {
    && IsAt(s.log.chains, h, Returned(s.log.acked)) && Shape(s)
    && s.log.acked < |s.log.returned| && s.log.returned[s.log.acked] == h < RING
    && var path := [h, s.log.chains[h].d1, s.log.chains[h].d2];
    t == s.(q := s.q.(ack := (s.q.ack + 1) % WRAP, reqHead := s.q.reqHead[h := None], free := Released(s.q.free, path)),
            log := s.log.(acked := s.log.acked + 1, chains := s.log.chains - {h}, owner := Disown(s.log.owner, path)))
  }

  /** The entry the driver reads next is the oldest return, and its chain is still in the descriptor table. */
  lemma AckFinds(s: State)
    requires Inv(s) && s.q.ack != s.q.usedIdx
    ensures s.log.acked < |s.log.returned| && Shape(s)
    ensures var h := s.log.returned[s.log.acked];
      h < RING && s.q.used[s.q.ack % RING] == h && IsAt(s.log.chains, h, Returned(s.log.acked)) && Held(s, h)
  {
    Windows(s);
    WrapDiffers(s.log.acked, |s.log.returned|);
    WrapSlot(s.log.acked);
    assert ReturnedAt(s, s.log.acked);
    assert Held(s, s.log.returned[s.log.acked]);
  }

  /** The device can only have returned chains that end, so the drain loop always can go on. */
  lemma AckIs(s: State)
    requires Inv(s) && s.q.ack != s.q.usedIdx
    ensures CanAckUsed(s) && Acked(s, s.log.returned[s.log.acked], DoAck(s))
    ensures s.log.acked < |s.log.returned|
  {
    hide Inv, Walk, Released, Disown;
    AckFinds(s);
    var h := s.log.returned[s.log.acked];
    PublishedWalk(s.q.desc, s.log.chains[h].op, s.log.chains[h].req, h, s.log.chains[h].d1, s.log.chains[h].d2);
  }

  lemma AckRings(s: State, h: nat, t: State)
    requires Acked(s, h, t) && Indices(s) && Rings(s) && Places(s)
    ensures Shape(t) && Indices(t) && Rings(t) && Places(t)
  {
    WrapSlot(s.log.acked);
    forall k: nat | t.log.taken <= k < |t.log.submitted| ensures QueuedAt(t, k) {
      assert QueuedAt(s, k);
    }
    forall k: nat | t.log.acked <= k < |t.log.returned| ensures ReturnedAt(t, k) {
      assert ReturnedAt(s, k);
    }
    forall g: nat | g in t.log.chains ensures Placed(t, g) {
      assert Placed(s, g);
    }
  }

  lemma AckHolds(s: State, h: nat, t: State)
    requires Acked(s, h, t) && Chains(s) && Owners(s) && Shape(t)
    ensures Chains(t) && Owners(t)
  {
    assert Held(s, h);
    forall g: nat | g in t.log.chains ensures Held(t, g) {
      assert Held(s, g);
    }
    forall d: nat | d < RING ensures Owned(t, d) {
      assert Owned(s, d);
    }
  }

  lemma AckPhase(s: State, h: nat, t: State, id: nat)
    requires Acked(s, h, t) && Held(s, h) && h !in s.dev.jobs && Shape(t) && id in s.calls && s.calls[id].req in s.reqs
    requires Phased(s, id)
    ensures Phased(t, id)
  {
    hide Released;
  }

  lemma AckCalls(s: State, h: nat, t: State)
    requires Acked(s, h, t) && Chains(s) && Rings(s) && Lives(s) && Calls(s) && Misc(s) && Shape(t)
    ensures Lives(t) && Calls(t) && Misc(t)
  {
    AckLives(s, h, t);
    AckMisc(s, h, t);
    hide Held, Released, Disown, Paged, Buffered, Phased, Live, Acked, Chains, Rings, Lives, Misc;
    forall id: nat | id in t.calls ensures Paged(t, id) && Buffered(t, id) && Phased(t, id) {
      AckCall(s, h, t, id);
    }
  }

  lemma AckMisc(s: State, h: nat, t: State)
    requires Acked(s, h, t) && Chains(s) && Rings(s) && Misc(s) && Shape(t)
    ensures Misc(t) && t.calls == s.calls
  {
    assert Held(s, h) && h !in s.dev.jobs;
    hide Held, Released, Disown;
  }

  lemma AckCall(s: State, h: nat, t: State, id: nat)
    requires Acked(s, h, t) && Chains(s) && Rings(s) && Lives(s) && Calls(s) && Misc(s) && Shape(t) && id in t.calls
    requires id in s.calls
    ensures Paged(t, id) && Buffered(t, id) && Phased(t, id)
  {
    assert Held(s, h) && h !in s.dev.jobs;
    hide Held, Released, Disown, Phased, Live;
    assert Paged(s, id) && Buffered(s, id) && Phased(s, id);
    AckPhase(s, h, t, id);
  }

  lemma AckLives(s: State, h: nat, t: State)
    requires Acked(s, h, t) && Lives(s)
    ensures Lives(t)
  {
    hide Released, Disown;
    forall g: nat | g in t.log.chains ensures Live(t, g) {
      assert Live(s, g);
    }
  }

  lemma AckKeeps(s: State)
    requires Inv(s) && CanAckUsed(s)
    ensures Inv(DoAck(s))
  {
    var t := DoAck(s);
    assert s.q.ack != s.q.usedIdx;
    hide *;
    Parts(s);
    AckIs(s);
    var h := s.log.returned[s.log.acked];
    AckRings(s, h, t);
    AckHolds(s, h, t);
    AckCalls(s, h, t);
    Conclude(t);
  }
}
