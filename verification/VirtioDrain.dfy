/** The drain loop against a device that keeps working between its rounds. */
module VirtioDrain {
  import opened Virtqueue
  import opened VirtioSystem
  import opened VirtioInv
  import opened VirtioKeeps
  import opened VirtioCalls
  import opened VirtioTheorems

  predicate ByDevice(step: Step) { step.Fetch? || step.Transfer? || step.Answer? || step.Push? }

  /** The device can take these steps, one after the other. */
  ghost predicate CanWork(s: State, work: seq<Step>)
    decreases work
  {
    work == [] || (ByDevice(work[0]) && Can(s, work[0]) && CanWork(Do(s, work[0]), work[1..]))
  }

  ghost function Worked(s: State, work: seq<Step>): State
    requires CanWork(s, work)
    decreases work
  {
    if work == [] then s else Worked(Do(s, work[0]), work[1..])
  }

  /** The chains the device returns on the way. */
  function Heads(work: seq<Step>): seq<nat>
    decreases work
  {
    if work == [] then [] else (if work[0].Push? then [work[0].head] else []) + Heads(work[1..])
  }

  /** What device steps do that the driver can see: they append returns to the used ring. */
  ghost predicate Appended(s: State, heads: seq<nat>, t: State) {
    && QueueOk(s.q) && t.q == Reported(s.q, heads) && t.calls == s.calls && t.table == s.table
    && t.log.returned == s.log.returned + heads && t.log.acked == s.log.acked
  }

  lemma FetchAppends(s: State)
    requires QueueOk(s.q) && CanFetch(s)
    ensures Appended(s, [], DoFetch(s))
  {
  }

  lemma TransferAppends(s: State, h: nat, status: nat, bytes: seq<byte>)
    requires QueueOk(s.q) && CanTransfer(s, h, status, bytes)
    ensures Appended(s, [], DoTransfer(s, h, status, bytes))
  {
    hide Visible, Slice, Splice;
  }

  lemma AnswerAppends(s: State, h: nat)
    requires QueueOk(s.q) && CanAnswer(s, h)
    ensures Appended(s, [], DoAnswer(s, h))
  {
    hide Visible;
  }

  lemma PushAppends(s: State, h: nat)
    requires QueueOk(s.q) && CanPush(s, h)
    ensures Appended(s, [h], DoPush(s, h))
  {
    assert [h][1..] == [];
  }

  lemma WorkStep(s: State, step: Step)
    requires Inv(s) && Can(s, step) && ByDevice(step)
    ensures Inv(Do(s, step)) && Appended(s, Heads([step]), Do(s, step))
  {
    hide Inv, Appended, Can, Do;
    InvQueue(s);
    StepKeeps(s, step);
    StepAppends(s, step);
  }

  lemma InvQueue(s: State)
    requires Inv(s)
    ensures QueueOk(s.q) && s.log.acked <= |s.log.returned|
  {
    assert Indices(s);
  }

  lemma StepAppends(s: State, step: Step)
    requires QueueOk(s.q) && Can(s, step) && ByDevice(step)
    ensures Appended(s, Heads([step]), Do(s, step))
  {
    hide Appended, DoFetch, DoTransfer, DoAnswer, DoPush, CanFetch, CanTransfer, CanAnswer, CanPush;
    assert Heads([step]) == if step.Push? then [step.head] else [];
    match step
    case Fetch => FetchAppends(s);
    case Transfer(h, status, bytes) => TransferAppends(s, h, status, bytes);
    case Answer(h) => AnswerAppends(s, h);
    case Push(h) => PushAppends(s, h);
    case _ =>
  }

  lemma {:induction false} ReportedJoin(q: Queue, a: seq<nat>, b: seq<nat>)
    requires QueueOk(q)
    ensures Reported(q, a + b) == Reported(Reported(q, a), b)
    decreases a
  {
    if a == [] {
      assert a + b == b;
    } else {
      assert (a + b)[0] == a[0] && (a + b)[1..] == a[1..] + b;
      ReportedJoin(q.(used := q.used[q.usedIdx % RING := a[0]], usedIdx := (q.usedIdx + 1) % WRAP), a[1..], b);
    }
  }

  lemma AppendedJoin(s: State, a: seq<nat>, u: State, b: seq<nat>, t: State)
    requires Appended(s, a, u) && Appended(u, b, t)
    ensures Appended(s, a + b, t)
  {
    hide Reported;
    ReportedJoin(s.q, a, b);
    assert s.log.returned + (a + b) == (s.log.returned + a) + b;
  }

  lemma {:induction false} WorkedKeeps(s: State, work: seq<Step>)
    requires Inv(s) && CanWork(s, work)
    ensures Inv(Worked(s, work)) && Appended(s, Heads(work), Worked(s, work))
    decreases work
  {
    hide Inv, Can, Do;
    if work == [] {
      InvQueue(s);
    } else {
      hide Appended;
      WorkStep(s, work[0]);
      WorkedKeeps(Do(s, work[0]), work[1..]);
      AppendedJoin(s, Heads([work[0]]), Do(s, work[0]), Heads(work[1..]), Worked(s, work));
    }
  }

  // ---------------------------------------------------------------- rounds with the device at work in between

  /** The device's work before each reading of its index is possible, as long as the drain goes on. */
  ghost predicate CanAmid(s: State, work: seq<seq<Step>>)
    decreases work
  {
    work == [] || (
      && CanWork(s, work[0])
      && var u := Worked(s, work[0]);
      u.q.ack != u.q.usedIdx && CanAckUsed(u) ==> CanAmid(DoAck(u), work[1..]))
  }

  /** The chains returned before each reading. */
  function News(work: seq<seq<Step>>): (news: seq<seq<nat>>)
    ensures |news| == |work|
  {
    seq(|work|, i requires 0 <= i < |work| => Heads(work[i]))
  }

  function Flat(news: seq<seq<nat>>): seq<nat>
    decreases news
  {
    if news == [] then [] else news[0] + Flat(news[1..])
  }

  /** Descriptor `d` belongs to one of the chains. */
  ghost predicate OnChains(q: Queue, heads: seq<nat>, d: nat) {
    exists h: nat :: h in heads && d in Path(q, h)
  }

  /** From `s` to `t` the drain has consumed what was waiting and then `heads`, and nothing is waiting any more. */
  ghost predicate Drained(s: State, heads: seq<nat>, t: State) {
    && |s.q.free| == |t.q.free| == RING && t.q.desc == s.q.desc
    && t.calls == s.calls && t.table == s.table
    && t.log.returned == s.log.returned + heads && Backlist(t) == []
    && forall d: nat :: d < RING ==> (t.q.free[d] <==> s.q.free[d] || OnChains(s.q, Backlist(s) + heads, d))
  }

  lemma AmidDone(q: Queue, news: seq<seq<nat>>)
    requires QueueOk(q) && Told(q, news).ack == Told(q, news).usedIdx
    ensures DrainableAmid(q, news) && DrainAmid(q, news) == Told(q, news)
  {
  }

  lemma AmidMore(q: Queue, news: seq<seq<nat>>)
    requires QueueOk(q) && Told(q, news).ack != Told(q, news).usedIdx && CanAck(Told(q, news))
    requires DrainableAmid(AckOne(Told(q, news)), Later(news))
    ensures DrainableAmid(q, news) && DrainAmid(q, news) == DrainAmid(AckOne(Told(q, news)), Later(news))
  {
    hide AckOne, CanAck;
    BacklogStep(Told(q, news));
  }

  /** One round consumes the oldest return. */
  lemma RoundIs(s: State)
    requires Inv(s) && s.q.ack != s.q.usedIdx
    ensures CanAckUsed(s) && Inv(DoAck(s)) && DoAck(s).q == AckOne(s.q) && CanAck(s.q) && QueueOk(s.q)
    ensures DoAck(s).calls == s.calls && DoAck(s).table == s.table && DoAck(s).log.returned == s.log.returned
    ensures Backlist(s) != [] && Backlist(DoAck(s)) == Backlist(s)[1..]
    ensures forall d: nat :: d < RING ==>
      (DoAck(s).q.free[d] || OnBacklog(DoAck(s), d) <==> s.q.free[d] || OnBacklog(s, d))
  {
    AckIs(s);
    AckKeeps(s);
    IndicesTell(s);
    RingsAreQueues(s, Ack);
    hide Inv, OnBacklog;
    forall d: nat | d < RING
      ensures DoAck(s).q.free[d] || OnBacklog(DoAck(s), d) <==> s.q.free[d] || OnBacklog(s, d)
    {
      AckFrees(s, d);
    }
  }

  lemma AppendedBacklog(s: State, heads: seq<nat>, u: State)
    requires Appended(s, heads, u) && s.log.acked <= |s.log.returned|
    ensures Backlist(u) == Backlist(s) + heads && u.q.free == s.q.free && u.q.desc == s.q.desc
  {
    hide Reported;
  }

  /** The drain ends at once: nothing was waiting and the device added nothing. */
  lemma DrainedNow(s: State, heads: seq<nat>, u: State)
    requires Appended(s, heads, u) && s.log.acked <= |s.log.returned| && Backlist(u) == []
    ensures Drained(s, heads, u)
  {
    hide Reported, Path;
    AppendedBacklog(s, heads, u);
  }

  lemma OnChainsJoin(q: Queue, a: seq<nat>, b: seq<nat>, d: nat)
    ensures OnChains(q, a + b, d) <==> OnChains(q, a, d) || OnChains(q, b, d)
  {
    hide Path;
    if OnChains(q, a, d) {
      var h :| h in a && d in Path(q, h);
      assert h in a + b;
    }
    if OnChains(q, b, d) {
      var h :| h in b && d in Path(q, h);
      assert h in a + b;
    }
  }

  /** Work, a round and the rest of the drain. */
  lemma DrainedMore(s: State, a: seq<nat>, u: State, v: State, b: seq<nat>, t: State)
    requires Appended(s, a, u) && s.log.acked <= |s.log.returned| && Drained(v, b, t)
    requires |u.q.free| == |v.q.free| == RING && v.q.desc == u.q.desc && v.calls == u.calls && v.table == u.table
    requires v.log.returned == u.log.returned
    requires forall d: nat :: d < RING ==> (v.q.free[d] || OnBacklog(v, d) <==> u.q.free[d] || OnBacklog(u, d))
    ensures Drained(s, a + b, t)
  {
    hide Reported, Path;
    AppendedBacklog(s, a, u);
    assert s.log.returned + (a + b) == (s.log.returned + a) + b;
    forall d: nat | d < RING ensures t.q.free[d] <==> s.q.free[d] || OnChains(s.q, Backlist(s) + (a + b), d) {
      SameChains(u, s.q, d);
      SameChains(v, s.q, d);
      hide OnChains, OnBacklog, Backlist;
      OnChainsJoin(s.q, Backlist(v), b, d);
      OnChainsJoin(s.q, Backlist(u), b, d);
      assert Backlist(s) + (a + b) == Backlist(u) + b;
      OnChainsSame(v.q, s.q, Backlist(v) + b, d);
    }
  }

  lemma SameChains(s: State, q: Queue, d: nat)
    requires s.q.desc == q.desc
    ensures OnBacklog(s, d) <==> OnChains(q, Backlist(s), d)
  {
    assert forall h: nat :: Path(s.q, h) == Path(q, h);
    hide Path;
  }

  lemma OnChainsSame(p: Queue, q: Queue, heads: seq<nat>, d: nat)
    requires p.desc == q.desc
    ensures OnChains(p, heads, d) <==> OnChains(q, heads, d)
  {
    assert forall h: nat :: Path(p, h) == Path(q, h);
    hide Path;
  }

  lemma FlatOne(heads: seq<nat>)
    ensures Flat([heads]) == heads
  {
    assert heads + Flat([]) == heads;
  }

  lemma NewsCons(work: seq<seq<Step>>, k: nat)
    requires work != [] && k <= |work| - 1
    ensures News(work)[0] == Heads(work[0]) && Later(News(work)) == News(work[1..])
    ensures Flat(News(work)[..k + 1]) == Heads(work[0]) + Flat(News(work[1..])[..k])
    ensures Flat(News(work)[..1]) == Heads(work[0])
  {
    var news := News(work);
    assert news[1..] == News(work[1..]);
    assert news[..k + 1][1..] == News(work[1..])[..k];
    assert news[..1] == [Heads(work[0])];
    FlatOne(Heads(work[0]));
  }

  /** One round of the drain loop, after the device's work. */
  lemma WorkThenRound(s: State, work: seq<Step>)
    requires Inv(s) && CanWork(s, work)
    ensures var u := Worked(s, work);
      && Inv(u) && Appended(s, Heads(work), u) && s.log.acked <= |s.log.returned|
      && (u.q.ack == u.q.usedIdx <==> Backlist(u) == [])
  {
    hide Inv, Appended, CanWork, Worked, Heads;
    InvQueue(s);
    WorkedKeeps(s, work);
    IndicesTell(Worked(s, work));
  }

  /** The device is quiet from here on. */
  lemma {:induction false} DrainsQuiet(s: State) returns (t: State)
    requires Inv(s)
    ensures QueueOk(s.q) && DrainableAmid(s.q, []) && t.q == DrainAmid(s.q, []) && Inv(t) && Drained(s, [], t)
    decreases |Backlist(s)|
  {
    WorkThenRound(s, []);
    assert Appended(s, [], s);
    hide Inv, Appended, Drained, DrainAmid, DrainableAmid, OnBacklog;
    if s.q.ack == s.q.usedIdx {
      t := s;
      AmidDone(s.q, []);
      DrainedNow(s, [], s);
    } else {
      RoundIs(s);
      t := DrainsQuiet(DoAck(s));
      AmidMore(s.q, []);
      var none: seq<nat> := [];
      DrainedMore(s, none, s, DoAck(s), none, t);
      assert none + none == [];
    }
  }

  lemma AmidSplit(s: State, work: seq<seq<Step>>)
    requires CanAmid(s, work) && work != []
    ensures CanWork(s, work[0])
    ensures var u := Worked(s, work[0]);
      u.q.ack != u.q.usedIdx && CanAckUsed(u) ==> CanAmid(DoAck(u), work[1..])
  {
    hide CanWork, Worked, CanAckUsed, DoAck;
  }

  lemma AppendedQueue(s: State, heads: seq<nat>, u: State)
    requires Appended(s, heads, u)
    ensures QueueOk(s.q) && u.q == Reported(s.q, heads)
  {
    hide Reported;
  }

  /** Whatever the device does before each reading of its index, the drain can go on to its end, which consumes exactly
      the returns that were waiting and those the device has added, and frees exactly their descriptors. */
  lemma {:induction false} DrainsAmid(s: State, work: seq<seq<Step>>) returns (t: State, read: nat)
    requires Inv(s) && CanAmid(s, work)
    ensures QueueOk(s.q) && DrainableAmid(s.q, News(work)) && t.q == DrainAmid(s.q, News(work)) && Inv(t)
    ensures read <= |work| && Drained(s, Flat(News(work)[..read]), t)
    decreases |work|
  {
    hide Inv, Drained, DrainAmid, DrainableAmid, Appended, OnBacklog, Reported, CanWork, Worked, Heads, CanAmid;
    if work == [] {
      t := DrainsQuiet(s);
      read := 0;
      assert News(work) == [] && Flat([]) == [];
    } else {
      AmidSplit(s, work);
      WorkThenRound(s, work[0]);
      var u := Worked(s, work[0]);
      hide Flat, News;
      NewsCons(work, 0);
      AppendedQueue(s, Heads(work[0]), u);
      if u.q.ack == u.q.usedIdx {
        t, read := u, 1;
        AmidDone(s.q, News(work));
        DrainedNow(s, Heads(work[0]), u);
      } else {
        RoundIs(u);
        var more;
        t, more := DrainsAmid(DoAck(u), work[1..]);
        read := more + 1;
        NewsCons(work, more);
        AmidMore(s.q, News(work));
        DrainedMore(s, Heads(work[0]), u, DoAck(u), Flat(News(work[1..])[..more]), t);
      }
    }
  }
}
