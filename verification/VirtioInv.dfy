/** What every step of driver, device and surrounding kernel keeps. */
module VirtioInv {
  import opened PageFrame
  import opened Virtqueue
  import opened VirtioSystem

  // ---------------------------------------------------------------- rings and places

  ghost predicate Shape(s: State) {
    QueueOk(s.q) && |s.log.owner| == RING && WellFormed(s.table) && s.room <= |s.table|
  }

  /** The four wrapping indices are the lengths of the unbounded histories. */
  ghost predicate Indices(s: State) {
    && s.log.taken <= |s.log.submitted| && s.log.acked <= |s.log.returned|
    && s.q.availIdx == |s.log.submitted| % WRAP && s.dev.seen == s.log.taken % WRAP
    && s.q.usedIdx == |s.log.returned| % WRAP && s.q.ack == s.log.acked % WRAP
  }

  ghost predicate IsAt(chains: map<nat, Chain>, h: nat, place: Place) {
    h in chains && chains[h].place == place
  }

  /** Submission `k` waits in its ring slot. */
  ghost predicate QueuedAt(s: State, k: nat)
    requires Shape(s) && k < |s.log.submitted|
  {
    s.q.avail[k % RING] == s.log.submitted[k] && IsAt(s.log.chains, s.log.submitted[k], Queued(k))
  }

  ghost predicate ReturnedAt(s: State, k: nat)
    requires Shape(s) && k < |s.log.returned|
  {
    s.q.used[k % RING] == s.log.returned[k] && IsAt(s.log.chains, s.log.returned[k], Returned(k))
  }

  ghost predicate Rings(s: State)
    requires Shape(s)
  {
    && (forall k: nat :: s.log.taken <= k < |s.log.submitted| ==> QueuedAt(s, k))
    && (forall k: nat :: s.log.acked <= k < |s.log.returned| ==> ReturnedAt(s, k))
    && (forall h: nat :: h in s.dev.jobs ==> IsAt(s.log.chains, h, Working))
  }

  /** A chain is in exactly one of the three places. */
  ghost predicate Placed(s: State, h: nat)
    requires h in s.log.chains
  {
    match s.log.chains[h].place
    case Queued(k) => s.log.taken <= k < |s.log.submitted| && s.log.submitted[k] == h
    case Working => h in s.dev.jobs
    case Returned(k) => s.log.acked <= k < |s.log.returned| && s.log.returned[k] == h
  }

  ghost predicate Places(s: State) {
    forall h: nat :: h in s.log.chains ==> Placed(s, h)
  }

  // ---------------------------------------------------------------- descriptors

  ghost predicate Distinct(a: nat, b: nat, c: nat) {
    a < RING && b < RING && c < RING && a != b && a != c && b != c
  }

  /** The three descriptors of an outstanding chain are its own and read as they were published. */
  ghost predicate Held(s: State, h: nat)
    requires Shape(s) && h in s.log.chains
  {
    var c := s.log.chains[h];
    && Distinct(h, c.d1, c.d2)
    && s.log.owner[h] == s.log.owner[c.d1] == s.log.owner[c.d2] == ByChain(h)
    && s.q.desc[h] == HeadDesc(c.req, c.d1) && s.q.desc[c.d1] == DataDesc(c.op, c.d2)
    && s.q.desc[c.d2] == StatusDesc(c.req)
  }

  ghost predicate Chains(s: State)
    requires Shape(s)
  {
    forall h: nat :: h in s.log.chains ==> Held(s, h)
  }

  /** A descriptor is free exactly when nobody holds it, and a holder holds no others than its own three. */
  ghost predicate Owned(s: State, d: nat)
    requires Shape(s) && d < RING
  {
    && (s.q.free[d] <==> s.log.owner[d] == Nobody)
    && (s.log.owner[d].ByChain? ==>
          && s.log.owner[d].head in s.log.chains
          && var c := s.log.chains[s.log.owner[d].head];
          d == s.log.owner[d].head || d == c.d1 || d == c.d2)
    && (s.log.owner[d].ByCall? ==>
          && s.log.owner[d].id in s.calls
          && var p := s.calls[s.log.owner[d].id].phase;
          p.Claimed? && (d == p.d0 || d == p.d1 || d == p.d2))
  }

  ghost predicate Owners(s: State)
    requires Shape(s)
  {
    forall d: nat :: d < RING ==> Owned(s, d)
  }

  // ---------------------------------------------------------------- requests and calls

  /** The device has still to touch the request behind head `h`. */
  ghost predicate Unanswered(s: State, h: nat)
    requires h in s.log.chains
  {
    s.log.chains[h].place.Queued? || (h in s.dev.jobs && !s.dev.jobs[h].Answered?)
  }

  /** Until it is answered, a chain's call is waiting and its request page is untouched. */
  ghost predicate Live(s: State, h: nat)
    requires h in s.log.chains
  {
    var c := s.log.chains[h];
    && c.call < s.log.nextId
    && (Unanswered(s, h) ==>
          && c.call in s.calls && s.calls[c.call].op == c.op && s.calls[c.call].req == c.req
          && s.calls[c.call].phase == Waiting(h)
          && c.req in s.reqs && s.reqs[c.req] == Init(c.op)
          && (c.call in s.log.moved <==> h in s.dev.jobs && s.dev.jobs[h].Moved?)
          && (h in s.dev.jobs && s.dev.jobs[h].Moved? ==>
                s.log.moved[c.call].status == s.dev.jobs[h].status != PENDING))
  }

  ghost predicate Lives(s: State) {
    forall h: nat :: h in s.log.chains ==> Live(s, h)
  }

  /** A call owns a one-page run below the heap's end, and the request in it is the one it wrote. */
  ghost predicate Paged(s: State, id: nat)
    requires id in s.calls
  {
    var c := s.calls[id];
    && id < s.log.nextId && c.req in s.reqs && c.req in s.log.holder && s.log.holder[c.req] == id
    && c.req < s.room && OnePage(s.table, c.req)
    && s.reqs[c.req] == Init(c.op).(status := s.reqs[c.req].status)
  }

  ghost predicate Phased(s: State, id: nat)
    requires Shape(s) && id in s.calls && s.calls[id].req in s.reqs
  {
    var c := s.calls[id];
    var status := s.reqs[c.req].status;
    match c.phase
    case Prepared => status == PENDING && id !in s.log.moved
    case Claimed(a, b, d) =>
      && status == PENDING && id !in s.log.moved
      && Distinct(a, b, d) && s.log.owner[a] == s.log.owner[b] == s.log.owner[d] == ByCall(id)
    case Waiting(h) =>
      if status == PENDING then h in s.log.chains && s.log.chains[h].call == id && Unanswered(s, h)
      else id in s.log.moved && s.log.moved[id].status == status
  }

  /** What a call's buffer holds: the data to write, or what a successful read has brought. */
  ghost predicate Buffered(s: State, id: nat)
    requires id in s.calls
  {
    var c := s.calls[id];
    && c.op.buf + c.op.size <= |s.mem|
    && (c.op.write ==> Slice(s.mem, c.op.buf, c.op.size) == c.data)
    && (id in s.log.moved && s.log.moved[id].status == 0 ==> Slice(s.mem, c.op.buf, c.op.size) == s.log.moved[id].bytes)
  }

  ghost predicate Calls(s: State)
    requires Shape(s)
  {
    && (forall id: nat :: id in s.calls ==> Paged(s, id))
    && (forall id: nat :: id in s.calls ==> Phased(s, id))
    && (forall id: nat :: id in s.calls ==> Buffered(s, id))
  }

  ghost predicate Misc(s: State) {
    && (forall req: nat :: req in s.reqs <==> req in s.log.holder)
    && (forall req: nat :: req in s.log.holder ==>
          s.log.holder[req] in s.calls && s.calls[s.log.holder[req]].req == req)
    && (forall i: nat, j: nat :: i in s.calls && j in s.calls && i != j ==> Apart(s.calls[i].op, s.calls[j].op))
    && (forall id: nat :: id in s.log.moved ==> id < s.log.nextId)
  }

  ghost predicate Inv(s: State) {
    && Shape(s) && Indices(s) && Rings(s) && Places(s)
    && Chains(s) && Owners(s) && Lives(s) && Calls(s) && Misc(s)
  }
}
