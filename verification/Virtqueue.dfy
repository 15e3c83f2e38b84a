/** The driver's half of a split virtqueue of eight descriptors: the free list, the descriptor table, the
    available and used rings, and the two indices that wrap at 16 bits. */
module Virtqueue {
  import opened PageFrame

  const RING: nat := 8
  const WRAP: nat := 0x1_0000

  const NEXT: bv16 := 1
  const WRITE: bv16 := 2

  /** Where a descriptor points: the header or the status byte of a request page, or a data buffer. */
  datatype Addr = HeaderOf(req: nat) | StatusOf(req: nat) | Bytes(at: nat)
  datatype Desc = Desc(addr: Addr, len: nat, flags: bv16, next: nat)

  /** One block operation: a buffer, its size, the byte offset on the disk and the direction. */
  datatype Io = Io(buf: nat, size: nat, offset: nat, write: bool)

  datatype Queue = Queue(free: seq<bool>, reqHead: seq<Option<nat>>, desc: seq<Desc>,
                         avail: seq<nat>, availIdx: nat, used: seq<nat>, usedIdx: nat, ack: nat)

  predicate QueueOk(q: Queue) {
    && |q.free| == |q.reqHead| == |q.desc| == |q.avail| == |q.used| == RING
    && q.availIdx < WRAP && q.usedIdx < WRAP && q.ack < WRAP
  }

  // ---------------------------------------------------------------- taking three descriptors

  /** The lowest free index from `i` on. */
  function NextFree(free: seq<bool>, i: nat): (r: Option<nat>)
    ensures r.Some? ==> i <= r.value < |free| && free[r.value] && forall j :: i <= j < r.value ==> !free[j]
    ensures r.None? ==> forall j :: i <= j < |free| ==> !free[j]
    decreases |free| - i
  {
    if i >= |free| then None else if free[i] then Some(i) else NextFree(free, i + 1)
  }

  /** The three lowest free indices. */
  ghost predicate LowestThree(free: seq<bool>, a: nat, b: nat, c: nat) {
    && a < b < c < |free| && free[a] && free[b] && free[c]
    && forall j :: 0 <= j < c && free[j] ==> j == a || j == b
  }

  ghost predicate FewerThanThree(free: seq<bool>) {
    forall a, b, c :: 0 <= a < b < c < |free| ==> !free[a] || !free[b] || !free[c]
  }

  function ThreeFree(free: seq<bool>): (r: Option<(nat, nat, nat)>)
    ensures r.Some? ==> LowestThree(free, r.value.0, r.value.1, r.value.2)
    ensures r.None? ==> FewerThanThree(free)
  {
    match NextFree(free, 0)
    case None => None
    case Some(a) =>
      (match NextFree(free, a + 1)
       case None => None
       case Some(b) =>
         (match NextFree(free, b + 1)
          case None => None
          case Some(c) => Some((a, b, c))))
  }

  lemma LowestUnique(free: seq<bool>, a: nat, b: nat, c: nat)
    requires LowestThree(free, a, b, c)
    ensures ThreeFree(free) == Some((a, b, c))
  {
    assert free[a] && free[b] && free[c];
  }

  lemma FewerIsNone(free: seq<bool>)
    requires FewerThanThree(free)
    ensures ThreeFree(free) == None
  {
  }

  function TakeThree(free: seq<bool>, a: nat, b: nat, c: nat): seq<bool>
    requires a < |free| && b < |free| && c < |free|
  {
    free[a := false][b := false][c := false]
  }

  /** What the scan for free descriptors has collected before index `i`. */
  ghost predicate Picked(free: seq<bool>, i: nat, got: seq<nat>) {
    && i <= |free|
    && (forall k :: 0 <= k < |got| ==> got[k] < i && free[got[k]])
    && (forall k, l :: 0 <= k < l < |got| ==> got[k] < got[l])
    && forall j :: 0 <= j < i && free[j] ==> j in got
  }

  ghost function Without(free: seq<bool>, got: seq<nat>): (r: seq<bool>)
    ensures |r| == |free|
  {
    seq(|free|, j requires 0 <= j < |free| => free[j] && j !in got)
  }

  lemma PickNone(free: seq<bool>)
    ensures Picked(free, 0, []) && Without(free, []) == free
  {
  }

  lemma PickNext(free: seq<bool>, i: nat, got: seq<nat>)
    requires Picked(free, i, got) && i < |free|
    ensures Without(free, got)[i] == free[i]
    ensures free[i] ==> Picked(free, i + 1, got + [i]) && Without(free, got)[i := false] == Without(free, got + [i])
    ensures !free[i] ==> Picked(free, i + 1, got)
  {
  }

  lemma PickedThree(free: seq<bool>, i: nat, got: seq<nat>)
    requires Picked(free, i, got) && |got| == 3 && i == got[2] + 1
    ensures LowestThree(free, got[0], got[1], got[2]) && ThreeFree(free) == Some((got[0], got[1], got[2]))
    ensures Without(free, got) == TakeThree(free, got[0], got[1], got[2])
  {
    assert got == [got[0], got[1], got[2]];
    LowestUnique(free, got[0], got[1], got[2]);
  }

  lemma PickedFew(free: seq<bool>, got: seq<nat>)
    requires Picked(free, |free|, got) && |got| <= 2
    ensures FewerThanThree(free) && ThreeFree(free) == None && Listed(free, got)
  {
    FewerIsNone(free);
  }

  /** Free indices in ascending order. */
  ghost predicate Listed(free: seq<bool>, got: seq<nat>) {
    && (forall k :: 0 <= k < |got| ==> got[k] < |free| && free[got[k]])
    && forall k, l :: 0 <= k < l < |got| ==> got[k] < got[l]
  }

  lemma PutBack(free: seq<bool>, got: seq<nat>)
    requires got != [] && Listed(free, got)
    ensures got[0] < |free| && Listed(free, got[1..])
    ensures Without(free, got)[got[0] := true] == Without(free, got[1..])
  {
    assert got == [got[0]] + got[1..];
  }

  // ---------------------------------------------------------------- following and releasing a chain

  /** The descriptors met from `i` on, following NEXT, if the chain ends within `left` descriptors. */
  function Walk(desc: seq<Desc>, i: nat, left: nat): (r: Option<seq<nat>>)
    ensures r.Some? ==> r.value != [] && r.value[0] == i && forall d :: d in r.value ==> d < |desc|
    decreases left
  {
    if left == 0 || i >= |desc| then None
    else if desc[i].flags & NEXT == 0 then Some([i])
    else
      (match Walk(desc, desc[i].next, left - 1)
       case None => None
       case Some(rest) => Some([i] + rest))
  }

  /** How following a chain goes: it ends, it leaves the table, or it is not over yet. */
  datatype Trip = Ended(path: seq<nat>) | Left(path: seq<nat>) | Unfinished

  function Follow(desc: seq<Desc>, i: nat, left: nat): (t: Trip)
    ensures !t.Unfinished? ==> |t.path| <= left && forall d :: d in t.path ==> d < |desc|
    decreases left
  {
    if i >= |desc| then Left([])
    else if left == 0 then Unfinished
    else if desc[i].flags & NEXT == 0 then Ended([i])
    else
      (match Follow(desc, desc[i].next, left - 1)
       case Ended(rest) => Ended([i] + rest)
       case Left(rest) => Left([i] + rest)
       case Unfinished => Unfinished)
  }

  /** A chain that ends is the walk along it. */
  lemma {:induction false} EndedIsWalk(desc: seq<Desc>, i: nat, left: nat)
    ensures Walk(desc, i, left) == match Follow(desc, i, left) { case Ended(p) => Some(p) case _ => None }
    decreases left
  {
    if left > 0 && i < |desc| && desc[i].flags & NEXT != 0 {
      EndedIsWalk(desc, desc[i].next, left - 1);
    }
  }

  lemma FollowNext(desc: seq<Desc>, i: nat, left: nat)
    requires !Follow(desc, i, left).Unfinished?
    ensures i >= |desc| ==> Follow(desc, i, left) == Left([])
    ensures i < |desc| ==> left > 0
    ensures i < |desc| && desc[i].flags & NEXT == 0 ==> Follow(desc, i, left) == Ended([i])
    ensures i < |desc| && desc[i].flags & NEXT != 0 ==>
      var rest := Follow(desc, desc[i].next, left - 1);
      && !rest.Unfinished? && rest.Ended? == Follow(desc, i, left).Ended?
      && Follow(desc, i, left).path == [i] + rest.path
  {
  }

  lemma {:induction false} FollowEnough(desc: seq<Desc>, i: nat, n: nat, m: nat)
    requires !Follow(desc, i, n).Unfinished? && |Follow(desc, i, n).path| <= m
    ensures Follow(desc, i, m) == Follow(desc, i, n)
    decreases n
  {
    if n > 0 && i < |desc| && desc[i].flags & NEXT != 0 {
      FollowEnough(desc, desc[i].next, n - 1, m - 1);
    }
  }

  lemma {:induction false} FollowFrom(desc: seq<Desc>, i: nat, n: nat, k: nat)
    requires !Follow(desc, i, n).Unfinished? && k < |Follow(desc, i, n).path|
    ensures var p := Follow(desc, i, n).path;
      !Follow(desc, p[k], n - k).Unfinished? && Follow(desc, p[k], n - k).path == p[k..]
    decreases n
  {
    FollowNext(desc, i, n);
    hide Follow;
    if k > 0 {
      FollowFrom(desc, desc[i].next, n - 1, k - 1);
    }
  }

  /** A chain that is over never passed a descriptor twice. */
  lemma FollowDistinct(desc: seq<Desc>, i: nat, n: nat, j: nat, k: nat)
    requires !Follow(desc, i, n).Unfinished? && j < k < |Follow(desc, i, n).path|
    ensures Follow(desc, i, n).path[j] != Follow(desc, i, n).path[k]
  {
    var p := Follow(desc, i, n).path;
    FollowFrom(desc, i, n, j);
    FollowFrom(desc, i, n, k);
    hide Follow;
    if p[j] == p[k] {
      FollowEnough(desc, p[k], n - k, n - j);
    }
  }

  lemma {:induction false} DistinctShort(p: seq<nat>, n: nat)
    requires forall j, k :: 0 <= j < k < |p| ==> p[j] != p[k]
    requires forall k :: 0 <= k < |p| ==> p[k] < n
    ensures |p| <= n
    decreases n
  {
    if p != [] {
      assert p[0] < n;
      if n - 1 in p {
        var k :| 0 <= k < |p| && p[k] == n - 1;
        DistinctShort(p[..k] + p[k + 1..], n - 1);
      } else {
        DistinctShort(p, n - 1);
      }
    }
  }

  /** A chain is over within as many descriptors as there are, or never. */
  lemma ChainDecided(desc: seq<Desc>, i: nat, n: nat)
    requires !Follow(desc, i, n).Unfinished?
    ensures Follow(desc, i, |desc|) == Follow(desc, i, n)
  {
    var p := Follow(desc, i, n).path;
    forall j, k | 0 <= j < k < |p| ensures p[j] != p[k] {
      FollowDistinct(desc, i, n, j, k);
    }
    assert forall k :: 0 <= k < |p| ==> p[k] in p;
    DistinctShort(p, |desc|);
    FollowEnough(desc, i, n, |desc|);
  }

  function Released(free: seq<bool>, path: seq<nat>): (r: seq<bool>)
    ensures |r| == |free|
  {
    seq(|free|, i requires 0 <= i < |free| => free[i] || i in path)
  }

  lemma ReleaseNone(free: seq<bool>)
    ensures Released(free, []) == free
  {
  }

  lemma ReleaseOne(free: seq<bool>, done: seq<nat>, i: nat)
    requires i < |free|
    ensures Released(free, done)[i := true] == Released(free, done + [i])
  {
  }

  // ---------------------------------------------------------------- draining the used ring

  predicate CanAck(q: Queue)
    requires QueueOk(q)
  {
    q.used[q.ack % RING] < RING ==> Walk(q.desc, q.used[q.ack % RING], RING).Some?
  }

  /** One round of the drain loop. */
  function AckOne(q: Queue): (r: Queue)
    requires QueueOk(q) && CanAck(q)
    ensures QueueOk(r) && r.ack == (q.ack + 1) % WRAP
    ensures r.desc == q.desc && r.used == q.used && r.usedIdx == q.usedIdx && r.avail == q.avail
    ensures r.availIdx == q.availIdx
  {
    var h := q.used[q.ack % RING];
    var q1 := q.(ack := (q.ack + 1) % WRAP);
    if h >= RING then q1
    else q1.(reqHead := q.reqHead[h := None], free := Released(q.free, Walk(q.desc, h, RING).value))
  }

  /** Entries of the used ring not yet acknowledged, as the wrapping indices show it. */
  function Backlog(q: Queue): nat {
    (q.usedIdx - q.ack) % WRAP
  }

  lemma BacklogStep(q: Queue)
    requires QueueOk(q) && CanAck(q) && q.ack != q.usedIdx
    ensures Backlog(q) > 0 && Backlog(AckOne(q)) == Backlog(q) - 1
  {
    assert q.usedIdx - q.ack > 0 ==> Backlog(q) == q.usedIdx - q.ack;
    assert q.usedIdx - q.ack < 0 ==> Backlog(q) == q.usedIdx - q.ack + WRAP;
  }

  /** Every unacknowledged entry names a chain that ends, or no descriptor at all. */
  ghost predicate Drainable(q: Queue)
    requires QueueOk(q)
    decreases Backlog(q)
  {
    q.ack == q.usedIdx || (CanAck(q) && (BacklogStep(q); Drainable(AckOne(q))))
  }

  ghost function Drain(q: Queue): (r: Queue)
    requires QueueOk(q) && Drainable(q)
    ensures QueueOk(r) && r.ack == r.usedIdx == q.usedIdx && r.desc == q.desc
    decreases Backlog(q)
  {
    if q.ack == q.usedIdx then q else (BacklogStep(q); Drain(AckOne(q)))
  }

  /** The used ring after the device has returned more chains. */
  function Reported(q: Queue, heads: seq<nat>): (r: Queue)
    requires QueueOk(q)
    ensures QueueOk(r) && r.ack == q.ack && r.desc == q.desc && r.free == q.free
    ensures r.usedIdx == (q.usedIdx + |heads|) % WRAP
    decreases heads
  {
    if heads == [] then q
    else Reported(q.(used := q.used[q.usedIdx % RING := heads[0]], usedIdx := (q.usedIdx + 1) % WRAP), heads[1..])
  }

  /** The queue as the device's index is read, and what the device returns later. */
  function Told(q: Queue, news: seq<seq<nat>>): (r: Queue)
    requires QueueOk(q)
    ensures QueueOk(r)
  {
    if news == [] then q else Reported(q, news[0])
  }

  function Later(news: seq<seq<nat>>): seq<seq<nat>> { if news == [] then [] else news[1..] }

  /** The drain with a device that returns `news[k]` before its index is read for the `k`th time. */
  ghost predicate DrainableAmid(q: Queue, news: seq<seq<nat>>)
    requires QueueOk(q)
    decreases |news|, Backlog(q)
  {
    var q1 := Told(q, news);
    q1.ack == q1.usedIdx || (CanAck(q1) && (BacklogStep(q1); DrainableAmid(AckOne(q1), Later(news))))
  }

  ghost function DrainAmid(q: Queue, news: seq<seq<nat>>): (r: Queue)
    requires QueueOk(q) && DrainableAmid(q, news)
    ensures QueueOk(r) && r.ack == r.usedIdx && r.desc == q.desc
    decreases |news|, Backlog(q)
  {
    var q1 := Told(q, news);
    if q1.ack == q1.usedIdx then q1 else (BacklogStep(q1); DrainAmid(AckOne(q1), Later(news)))
  }

  /** With a quiet device it is the plain drain. */
  lemma {:induction false} QuietDrain(q: Queue)
    requires QueueOk(q) && Drainable(q)
    ensures DrainableAmid(q, []) && DrainAmid(q, []) == Drain(q)
    decreases Backlog(q)
  {
    if q.ack != q.usedIdx {
      hide AckOne, CanAck, Backlog;
      BacklogStep(q);
      QuietDrain(AckOne(q));
    }
  }

  // ---------------------------------------------------------------- publishing a chain

  const HEADER_BYTES: nat := 16

  function HeadDesc(req: nat, d1: nat): Desc { Desc(HeaderOf(req), HEADER_BYTES, NEXT, d1) }
  function DataDesc(op: Io, d2: nat): Desc { Desc(Bytes(op.buf), op.size, if op.write then NEXT else NEXT | WRITE, d2) }
  function StatusDesc(req: nat): Desc { Desc(StatusOf(req), 1, WRITE, 0) }

  function Publish(q: Queue, op: Io, req: nat, a: nat, b: nat, c: nat): (r: Queue)
    requires QueueOk(q) && a < RING && b < RING && c < RING
    ensures QueueOk(r)
  {
    q.(desc := q.desc[a := HeadDesc(req, b)][b := DataDesc(op, c)][c := StatusDesc(req)],
       reqHead := q.reqHead[a := Some(req)],
       avail := q.avail[q.availIdx % RING := a],
       availIdx := (q.availIdx + 1) % WRAP)
  }

  /** The chain just published is met, in order, when it is followed from its head. */
  lemma PublishedWalk(desc: seq<Desc>, op: Io, req: nat, a: nat, b: nat, c: nat)
    requires a < |desc| && b < |desc| && c < |desc|
    requires desc[a] == HeadDesc(req, b) && desc[b] == DataDesc(op, c) && desc[c] == StatusDesc(req)
    ensures Walk(desc, a, RING) == Some([a, b, c])
  {
    assert Walk(desc, c, 6) == Some([c]);
    assert Walk(desc, b, 7) == Some([b] + [c]);
    assert [a] + ([b] + [c]) == [a, b, c];
  }

  // ---------------------------------------------------------------- the queue as the driver holds it

  class VirtQueue {
    const free: array<bool>
    const reqHead: array<Option<nat>>
    const desc: array<Desc>
    const avail: array<nat>
    const used: array<nat>
    var availIdx: nat
    var usedIdx: nat
    var ack: nat

    ghost predicate Valid()
      reads this
    {
      && free.Length == reqHead.Length == desc.Length == avail.Length == used.Length == RING
      && availIdx < WRAP && usedIdx < WRAP && ack < WRAP
      && (free as object) != reqHead && (free as object) != desc && (free as object) != avail
      && (free as object) != used
      && (reqHead as object) != desc && (reqHead as object) != avail && (reqHead as object) != used
      && (desc as object) != avail && (desc as object) != used && avail != used
    }

    ghost function State(): (q: Queue)
      requires Valid()
      reads this, free, reqHead, desc, avail, used
      ensures QueueOk(q)
    {
      Queue(free[..], reqHead[..], desc[..], avail[..], availIdx, used[..], usedIdx, ack)
    }

    constructor ()
      ensures Valid() && fresh(free) && fresh(reqHead) && fresh(desc) && fresh(avail) && fresh(used)
      ensures forall i :: 0 <= i < RING ==> free[i] && reqHead[i] == None
      ensures availIdx == usedIdx == ack == 0
    {
      free := new bool[RING](_ => true);
      reqHead := new Option<nat>[RING](_ => None);
      desc := new Desc[RING](_ => Desc(Bytes(0), 0, 0, 0));
      avail := new nat[RING](_ => 0);
      used := new nat[RING](_ => 0);
      availIdx, usedIdx, ack := 0, 0, 0;
    }

    /** Take the three lowest free descriptors, or none at all. */
    method AllocDescChain() returns (r: Option<(nat, nat, nat)>)
      requires Valid()
      modifies free
      ensures r == ThreeFree(old(free[..]))
      ensures r.None? ==> free[..] == old(free[..]) && FewerThanThree(old(free[..]))
      ensures r.Some? ==>
        && LowestThree(old(free[..]), r.value.0, r.value.1, r.value.2)
        && free[..] == TakeThree(old(free[..]), r.value.0, r.value.1, r.value.2)
    {
      hide Picked, Listed, Without, ThreeFree, LowestThree, FewerThanThree, TakeThree;
      ghost var was := free[..];
      var out := new nat[3](_ => 0);
      var found := 0;
      var i := 0;
      PickNone(was);
      assert out[..found] == [];
      while i < RING
        modifies free, out
        invariant 0 <= i <= RING && 0 <= found <= 2
        invariant Picked(was, i, out[..found]) && free[..] == Without(was, out[..found])
      {
        ghost var got := out[..found];
        PickNext(was, i, got);
        if free[i] {
          free[i] := false;
          out[found] := i;
          found := found + 1;
          assert out[..found] == got + [i];
          if found == 3 {
            PickedThree(was, i + 1, out[..found]);
            return Some((out[0], out[1], out[2]));
          }
        }
        i := i + 1;
      }
      PickedFew(was, out[..found]);
      assert out[..found] == out[0..found];
      var k := 0;
      while k < found
        modifies free
        invariant 0 <= k <= found && Listed(was, out[k..found]) && free[..] == Without(was, out[k..found])
      {
        PutBack(was, out[k..found]);
        assert out[k..found][1..] == out[k + 1..found];
        free[out[k]] := true;
        k := k + 1;
      }
      assert out[k..found] == [];
      return None;
    }

    /** Give back every descriptor of the chain that starts at `head`; false is the panic at an index outside the
        table. A chain that goes round is the one case without an end. */
    method FreeDescChain(head: nat) returns (ok: bool)
      requires Valid() && !Follow(desc[..], head, RING).Unfinished?
      modifies free
      ensures ok == Follow(desc[..], head, RING).Ended?
      ensures free[..] == Released(old(free[..]), Follow(desc[..], head, RING).path)
    {
      hide Follow, Released;
      ghost var was, table := free[..], desc[..];
      ReleaseNone(was);
      ghost var trip := Follow(table, head, RING);
      var idx: nat := head;
      ghost var left: nat, done: seq<nat> := RING, [];
      while true
        modifies free
        invariant left <= RING && !Follow(table, idx, left).Unfinished?
        invariant done + Follow(table, idx, left).path == trip.path && Follow(table, idx, left).Ended? == trip.Ended?
        invariant free[..] == Released(was, done)
        decreases left
      {
        FollowNext(table, idx, left);
        if idx >= RING {
          assert done + [] == done;
          return false;
        }
        ReleaseOne(was, done, idx);
        free[idx] := true;
        done := done + [idx];
        if desc[idx].flags & NEXT == 0 {
          return true;
        }
        idx := desc[idx].next;
        left := left - 1;
      }
    }

    /** Write the three descriptors of a request and make its head available to the device. */
    method PublishChain(op: Io, req: nat, a: nat, b: nat, c: nat)
      requires Valid() && a < RING && b < RING && c < RING
      modifies this`availIdx, reqHead, desc, avail
      ensures Valid() && State() == Publish(old(State()), op, req, a, b, c)
    {
      desc[a] := HeadDesc(req, b);
      desc[b] := DataDesc(op, c);
      desc[c] := StatusDesc(req);
      reqHead[a] := Some(req);
      avail[availIdx % RING] := a;
      availIdx := (availIdx + 1) % WRAP;
    }

    /** One round of the drain: read the device's index as it stands, and consume an entry if there is one. */
    method Round() returns (more: bool)
      requires Valid() && (ack != usedIdx ==> CanAck(State()))
      modifies this`ack, free, reqHead
      ensures more == (old(ack) != usedIdx)
      ensures Valid() && State() == if more then AckOne(old(State())) else old(State())
    {
      if ack == usedIdx {
        return false;
      }
      ghost var q := State();
      var head := used[ack % RING];
      ack := (ack + 1) % WRAP;
      if head < RING {
        reqHead[head] := None;
        EndedIsWalk(desc[..], head, RING);
        var ended := FreeDescChain(head);
      }
      assert State() == AckOne(q);
      return true;
    }

    /** The device returns chains. */
    method Report(heads: seq<nat>)
      requires Valid()
      modifies this`usedIdx, used
      ensures Valid() && State() == Reported(old(State()), heads)
    {
      ghost var goal := Reported(State(), heads);
      for i := 0 to |heads|
        modifies this`usedIdx, used
        invariant Valid() && Reported(State(), heads[i..]) == goal
      {
        used[usedIdx % RING] := heads[i];
        usedIdx := (usedIdx + 1) % WRAP;
        assert heads[i..][1..] == heads[i + 1..];
      }
    }

    /** Consume every used entry until the device's index is reached; the device returns `news[k]` before the index is
        read for the `k`th time. */
    method Pending(news: seq<seq<nat>>)
      requires Valid() && DrainableAmid(State(), news)
      modifies this`ack, this`usedIdx, free, reqHead, used
      ensures Valid() && State() == DrainAmid(old(State()), news) && ack == usedIdx
    {
      hide AckOne, CanAck, Reported;
      ghost var goal := DrainAmid(State(), news);
      var k, more := 0, true;
      while more
        modifies this`ack, this`usedIdx, free, reqHead, used
        invariant Valid() && k <= |news|
        invariant (more ==> DrainableAmid(State(), news[k..]) && DrainAmid(State(), news[k..]) == goal)
        invariant !more ==> State() == goal && ack == usedIdx
        decreases more, |news| - k, Backlog(State())
      {
        ghost var q, rest := State(), news[k..];
        if k < |news| {
          Report(news[k]);
          assert rest[1..] == news[k + 1..];
          k := k + 1;
        }
        ghost var q1 := State();
        assert q1 == Told(q, rest) && news[k..] == Later(rest);
        if q1.ack != q1.usedIdx {
          BacklogStep(q1);
        }
        more := Round();
      }
    }
  }
}
