/** The block driver and its device as one transition system. Calls of block_op, rounds of the drain loop,
    the steps of the device and the rest of the kernel interleave freely. */
module VirtioSystem {
  import opened PageFrame
  import opened Virtqueue
  import Minix3

  type byte = Minix3.byte

  const PENDING: nat := 0xff
  const T_IN: nat := 0
  const T_OUT: nat := 1
  const SECTOR: nat := 512

  /** A request page. */
  datatype Request = Request(blktype: nat, sector: nat, data: nat, status: nat)

  /** How far a call of block_op has come. */
  datatype Phase = Prepared | Claimed(d0: nat, d1: nat, d2: nat) | Waiting(head: nat)

  /** A call in flight; `data` is what its buffer held when it was made. */
  datatype Call = Call(op: Io, req: nat, phase: Phase, data: seq<byte>)

  /** The device's progress on a head it has fetched. */
  datatype Job = Fetched | Moved(status: nat) | Answered
  datatype Device = Device(seen: nat, jobs: map<nat, Job>)

  // Histories that no step of driver or device reads: which heads were ever submitted and returned, how many of
  // them the other side has consumed, and who holds which descriptor, page and outcome.
  datatype Place = Queued(at: nat) | Working | Returned(at: nat)
  datatype Chain = Chain(call: nat, op: Io, req: nat, d1: nat, d2: nat, place: Place)
  datatype Owner = Nobody | ByCall(id: nat) | ByChain(head: nat)
  datatype Effect = Effect(status: nat, bytes: seq<byte>)
  datatype Log = Log(submitted: seq<nat>, taken: nat, returned: seq<nat>, acked: nat, chains: map<nat, Chain>,
                     owner: seq<Owner>, holder: map<nat, nat>, moved: map<nat, Effect>, nextId: nat)

  datatype State = State(q: Queue, dev: Device, reqs: map<nat, Request>, mem: seq<byte>, disk: seq<byte>,
                         table: seq<bv8>, room: nat, calls: map<nat, Call>, log: Log)

  datatype Step =
    | Begin(op: Io)
    | Claim(id: nat)
    | Submit(id: nat)
    | Ack
    | Finish(id: nat)
    | Fetch
    | Transfer(head: nat, status: nat, bytes: seq<byte>)
    | Answer(head: nat)
    | Push(head: nat)
    | Other(mem: seq<byte>, table: seq<bv8>)

  // ---------------------------------------------------------------- the driver's steps

  function Init(op: Io): Request {
    Request(if op.write then T_OUT else T_IN, op.offset / SECTOR, op.buf, PENDING)
  }

  function Slice(m: seq<byte>, at: nat, len: nat): (r: seq<byte>) {
    if at + len <= |m| then m[at..at + len] else []
  }

  function Splice(m: seq<byte>, at: nat, b: seq<byte>): (r: seq<byte>)
    ensures |r| == |m|
  {
    if at + |b| <= |m| then m[..at] + b + m[at + |b|..] else m
  }

  /** Two buffers may overlap only when the device writes to neither. */
  predicate Apart(a: Io, b: Io) {
    (a.write && b.write) || a.buf + a.size <= b.buf || b.buf + b.size <= a.buf
  }

  /** A request page and the request in it. */
  ghost predicate CanBegin(s: State, op: Io) {
    && op.buf + op.size <= |s.mem|
    && (forall id :: id in s.calls ==> Apart(op, s.calls[id].op))
    && FirstFit(s.table, 1, 0).Some? && FirstFit(s.table, 1, 0).value < s.room
  }

  ghost function DoBegin(s: State, op: Io): State
    requires CanBegin(s, op)
  {
    var req := FirstFit(s.table, 1, 0).value;
    var id := s.log.nextId;
    s.(table := MarkRun(s.table, req, 1),
       reqs := s.reqs[req := Init(op)],
       calls := s.calls[id := Call(op, req, Prepared, Slice(s.mem, op.buf, op.size))],
       log := s.log.(holder := s.log.holder[req := id], nextId := id + 1))
  }

  /** The allocator's table after the request page is given back. */
  function Freed(t: seq<bv8>, req: nat): (r: seq<bv8>)
    ensures |r| == |t|
  {
    match FreeFrom(t, req) case Some(u) => u case None => t
  }

  /** The call returns. */
  ghost function Retire(s: State, id: nat): State
    requires id in s.calls
  {
    var req := s.calls[id].req;
    s.(table := Freed(s.table, req), reqs := s.reqs - {req}, calls := s.calls - {id},
       log := s.log.(holder := s.log.holder - {req}))
  }

  ghost predicate CanClaim(s: State, id: nat) {
    id in s.calls && s.calls[id].phase.Prepared? && |s.q.free| == |s.log.owner| == RING
  }

  ghost function DoClaim(s: State, id: nat): State
    requires CanClaim(s, id)
  {
    match ThreeFree(s.q.free)
    case None => Retire(s, id)
    case Some(d) =>
      s.(q := s.q.(free := TakeThree(s.q.free, d.0, d.1, d.2)),
         calls := s.calls[id := s.calls[id].(phase := Claimed(d.0, d.1, d.2))],
         log := s.log.(owner := Own(s.log.owner, d.0, d.1, d.2, ByCall(id))))
  }

  function Own(owner: seq<Owner>, a: nat, b: nat, c: nat, who: Owner): (r: seq<Owner>)
    requires a < |owner| && b < |owner| && c < |owner|
    ensures |r| == |owner|
  {
    owner[a := who][b := who][c := who]
  }

  ghost predicate CanSubmit(s: State, id: nat) {
    && id in s.calls && s.calls[id].phase.Claimed? && QueueOk(s.q) && |s.log.owner| == RING
    && s.calls[id].phase.d0 < RING && s.calls[id].phase.d1 < RING && s.calls[id].phase.d2 < RING
  }

  ghost function DoSubmit(s: State, id: nat): State
    requires CanSubmit(s, id)
  {
    var c := s.calls[id];
    var Claimed(a, b, d) := c.phase;
    s.(q := Publish(s.q, c.op, c.req, a, b, d),
       calls := s.calls[id := c.(phase := Waiting(a))],
       log := s.log.(submitted := s.log.submitted + [a],
                     chains := s.log.chains[a := Chain(id, c.op, c.req, b, d, Queued(|s.log.submitted|))],
                     owner := Own(s.log.owner, a, b, d, ByChain(a))))
  }

  ghost predicate CanAckUsed(s: State) {
    QueueOk(s.q) && s.q.ack != s.q.usedIdx && CanAck(s.q) && |s.log.owner| == RING
  }

  /** One used entry is consumed: its chain is no longer outstanding. */
  ghost function DoAck(s: State): State
    requires CanAckUsed(s)
  {
    var h := s.q.used[s.q.ack % RING];
    var log := s.log.(acked := s.log.acked + 1, chains := s.log.chains - {h});
    s.(q := AckOne(s.q),
       log := if h >= RING then log else log.(owner := Disown(s.log.owner, Walk(s.q.desc, h, RING).value)))
  }

  function Disown(owner: seq<Owner>, path: seq<nat>): (r: seq<Owner>)
    ensures |r| == |owner|
  {
    seq(|owner|, i requires 0 <= i < |owner| => if i in path then Nobody else owner[i])
  }

  ghost predicate CanFinish(s: State, id: nat) {
    && id in s.calls && s.calls[id].phase.Waiting? && s.calls[id].req in s.reqs
    && s.reqs[s.calls[id].req].status != PENDING
  }

  /** What block_op answers. */
  ghost predicate Succeeded(s: State, id: nat)
    requires CanFinish(s, id)
  {
    s.reqs[s.calls[id].req].status == 0
  }

  // ---------------------------------------------------------------- the device's steps
  //
  // The device keeps to VIRTIO 1.1 and to nothing of the driver's: a ring of eight entries with 16-bit indices (section
  // 2.6), descriptor flags 1 for a next descriptor and 2 for a device-writable buffer (section 2.6.5), a 16-byte
  // request header, types 0 for reading and 1 for writing, 512-byte sectors and one status byte, 0 for success (section
  // 5.2.6).

  ghost predicate CanFetch(s: State) {
    |s.q.avail| == 8 && s.q.availIdx != s.dev.seen
  }

  function At(chains: map<nat, Chain>, h: nat, place: Place): map<nat, Chain> {
    if h in chains then chains[h := chains[h].(place := place)] else chains
  }

  ghost function DoFetch(s: State): State
    requires CanFetch(s)
  {
    var h := s.q.avail[s.dev.seen % 8];
    s.(dev := Device((s.dev.seen + 1) % 65536, s.dev.jobs[h := Fetched]),
       log := s.log.(taken := s.log.taken + 1, chains := At(s.log.chains, h, Working)))
  }

  /** The device can follow the chain, finds a header, a buffer and a status byte in it, the buffer is
      device-writable exactly for a read, and the request page is still a live one. */
  ghost predicate Visible(s: State, h: nat) {
    && |s.q.desc| == 8 && h < 8
    && var d0 := s.q.desc[h];
    && d0.addr.HeaderOf? && d0.flags & 1 != 0 && d0.flags & 2 == 0 && d0.next < 8 && d0.len == 16
    && var d1 := s.q.desc[d0.next];
    && d1.addr.Bytes? && d1.flags & 1 != 0 && d1.next < 8 && d1.addr.at + d1.len <= |s.mem|
    && var d2 := s.q.desc[d1.next];
    && d2.addr == StatusOf(d0.addr.req) && d2.flags & 1 == 0 && d2.flags & 2 != 0 && d2.len == 1
    && d0.addr.req in s.reqs
    && var r := s.reqs[d0.addr.req];
    && (r.blktype == 0 || r.blktype == 1)
    && (d1.flags & 2 != 0 <==> r.blktype == 0)
  }

  ghost function RequestOf(s: State, h: nat): Request
    requires Visible(s, h)
  {
    s.reqs[s.q.desc[h].addr.req]
  }

  ghost function DataOf(s: State, h: nat): Desc
    requires Visible(s, h)
  {
    s.q.desc[s.q.desc[h].next]
  }

  /** A successful transfer moves the right bytes; a failed one may leave anything in the range. */
  ghost predicate CanTransfer(s: State, h: nat, status: nat, bytes: seq<byte>) {
    && h in s.dev.jobs && s.dev.jobs[h].Fetched? && Visible(s, h) && status != 255 && status < 256
    && var r, d := RequestOf(s, h), DataOf(s, h);
    && |bytes| == d.len
    && (status == 0 ==>
          && r.sector * 512 + d.len <= |s.disk|
          && bytes == if r.blktype == 0 then Slice(s.disk, r.sector * 512, d.len) else Slice(s.mem, d.addr.at, d.len))
  }

  ghost function DoTransfer(s: State, h: nat, status: nat, bytes: seq<byte>): State
    requires CanTransfer(s, h, status, bytes)
  {
    var r, d := RequestOf(s, h), DataOf(s, h);
    s.(dev := s.dev.(jobs := s.dev.jobs[h := Moved(status)]),
       mem := if r.blktype == 0 then Splice(s.mem, d.addr.at, bytes) else s.mem,
       disk := if r.blktype == 0 then s.disk else Splice(s.disk, r.sector * 512, bytes),
       log := if h in s.log.chains
             then s.log.(moved := s.log.moved[s.log.chains[h].call := Effect(status, bytes)])
             else s.log)
  }

  ghost predicate CanAnswer(s: State, h: nat) {
    h in s.dev.jobs && s.dev.jobs[h].Moved? && Visible(s, h)
  }

  ghost function DoAnswer(s: State, h: nat): State
    requires CanAnswer(s, h)
  {
    var req := s.q.desc[h].addr.req;
    s.(dev := s.dev.(jobs := s.dev.jobs[h := Answered]),
       reqs := s.reqs[req := s.reqs[req].(status := s.dev.jobs[h].status)])
  }

  ghost predicate CanPush(s: State, h: nat) {
    h in s.dev.jobs && s.dev.jobs[h].Answered? && |s.q.used| == 8
  }

  ghost function DoPush(s: State, h: nat): State
    requires CanPush(s, h)
  {
    s.(q := s.q.(used := s.q.used[s.q.usedIdx % 8 := h], usedIdx := (s.q.usedIdx + 1) % 65536),
       dev := s.dev.(jobs := s.dev.jobs - {h}),
       log := s.log.(returned := s.log.returned + [h], chains := At(s.log.chains, h, Returned(|s.log.returned|))))
  }

  // ---------------------------------------------------------------- the rest of the kernel

  /** The page at `req` is a run of its own. */
  ghost predicate OnePage(t: seq<bv8>, req: nat) {
    req < |t| && t[req] == 3 && IsStart(t, req)
  }

  /** Other code writes outside the buffers in use and allocates or frees other pages. */
  ghost predicate CanOther(s: State, mem: seq<byte>, table: seq<bv8>) {
    && |mem| == |s.mem| && |table| == |s.table| && WellFormed(table)
    && (forall id :: id in s.calls ==>
          Slice(mem, s.calls[id].op.buf, s.calls[id].op.size) == Slice(s.mem, s.calls[id].op.buf, s.calls[id].op.size))
    && (forall req :: req in s.reqs ==> OnePage(table, req))
  }

  // ---------------------------------------------------------------- runs

  ghost predicate Can(s: State, step: Step) {
    match step
    case Begin(op) => CanBegin(s, op)
    case Claim(id) => CanClaim(s, id)
    case Submit(id) => CanSubmit(s, id)
    case Ack => CanAckUsed(s)
    case Finish(id) => CanFinish(s, id)
    case Fetch => CanFetch(s)
    case Transfer(h, status, bytes) => CanTransfer(s, h, status, bytes)
    case Answer(h) => CanAnswer(s, h)
    case Push(h) => CanPush(s, h)
    case Other(mem, table) => CanOther(s, mem, table)
  }

  ghost function Do(s: State, step: Step): State
    requires Can(s, step)
  {
    match step
    case Begin(op) => DoBegin(s, op)
    case Claim(id) => DoClaim(s, id)
    case Submit(id) => DoSubmit(s, id)
    case Ack => DoAck(s)
    case Finish(id) => Retire(s, id)
    case Fetch => DoFetch(s)
    case Transfer(h, status, bytes) => DoTransfer(s, h, status, bytes)
    case Answer(h) => DoAnswer(s, h)
    case Push(h) => DoPush(s, h)
    case Other(mem, table) => s.(mem := mem, table := table)
  }

  /** A freshly set-up queue: zeroed rings, all descriptors free, nothing in flight. */
  ghost predicate Start(s: State) {
    && QueueOk(s.q) && s.q.availIdx == s.q.usedIdx == s.q.ack == s.dev.seen == 0
    && (forall i :: 0 <= i < RING ==> s.q.free[i])
    && s.dev.jobs == map[] && s.reqs == map[] && s.calls == map[]
    && WellFormed(s.table) && s.room <= |s.table|
    && s.log == Log([], 0, [], 0, map[], seq(RING, _ => Nobody), map[], map[], 0)
  }

  /** `trace` is a run: it starts in a fresh state and every state follows by its step. */
  ghost predicate Run(trace: seq<State>, steps: seq<Step>) {
    && |trace| == |steps| + 1 && Start(trace[0])
    && forall i :: 0 <= i < |steps| ==> Follows(trace, steps, i)
  }

  ghost predicate Follows(trace: seq<State>, steps: seq<Step>, i: nat)
    requires i < |steps| && |trace| == |steps| + 1
  {
    Can(trace[i], steps[i]) && trace[i + 1] == Do(trace[i], steps[i])
  }
}
