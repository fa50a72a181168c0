/** The queues behind the hazard pointers: complete chains, nothing lost, nothing freed twice. */
module HazardQueues {
  import opened Options
  import opened HazardQueue
  import opened HazardSafety

  /** Queue `t` holds the nodes `hist[t][lo[t]..]`; the earlier ones have been freed. */
  ghost predicate QueueOk(s: State, t: Tid)
    requires t in s.threads
  {
    && t in s.q.head && t in s.q.tail && t in s.q.hist && t in s.q.lo
    && var h, l := s.q.hist[t], s.q.lo[t];
       if s.threads[t].life == Freed then l == |h|
       else l < |h| && s.q.head[t] == h[l] && s.q.tail[t] == h[|h| - 1]
  }

  ghost predicate QueuesOk(s: State) { forall t {:trigger QueueOk(s, t)} :: t in s.threads ==> QueueOk(s, t) }

  /** A node was put on one queue, once; it is freed exactly if the queue has moved past it. */
  ghost predicate NodeOk(q: Queues, n: Node) {
    && n in q.home && n in q.pos && n in q.holder && q.home[n] in q.hist && q.home[n] in q.lo
    && q.pos[n] < |q.hist[q.home[n]]| && q.hist[q.home[n]][q.pos[n]] == n
    && (n in q.freed <==> q.pos[n] < q.lo[q.home[n]])
  }

  ghost predicate SlotOk(q: Queues, t: Tid, i: nat)
    requires t in q.hist && i < |q.hist[t]|
  {
    var n := q.hist[t][i];
    n in q.home && n in q.pos && q.home[n] == t && q.pos[n] == i
  }

  ghost predicate NodesOk(s: State) {
    && (forall n {:trigger NodeOk(s.q, n)} :: n in s.q.home ==> NodeOk(s.q, n) && s.q.home[n] in s.threads)
    && (forall n :: n in s.q.freed ==> n in s.q.home)
    && (forall t, i {:trigger SlotOk(s.q, t, i)} :: t in s.threads && t in s.q.hist && 0 <= i < |s.q.hist[t]| ==>
        SlotOk(s.q, t, i))
  }

  /** The thread that pushed `p` is about to link it behind `prev`. */
  ghost predicate Linking(s: State, p: Node, t: Tid, prev: Node) {
    p in s.q.holder && s.q.holder[p] in s.threads && s.threads[s.q.holder[p]].pc == Link(p, t, prev)
  }

  /** Node `i` of queue `t` points to its successor, or its successor is about to be linked. */
  ghost predicate LinkOk(s: State, t: Tid, i: nat)
    requires t in s.q.hist && i < |s.q.hist[t]|
  {
    var h := s.q.hist[t];
    && h[i] in s.q.next
    && if i + 1 == |h| then s.q.next[h[i]] == None
       else s.q.next[h[i]] == Some(h[i + 1]) || (s.q.next[h[i]] == None && Linking(s, h[i + 1], t, h[i]))
  }

  ghost predicate LinksOk(s: State) {
    forall t, i {:trigger LinkOk(s, t, i)} ::
      t in s.threads && t in s.q.hist && t in s.q.lo && s.q.lo[t] <= i < |s.q.hist[t]| ==> LinkOk(s, t, i)
  }

  /** What a producer knows about the node it handles. */
  ghost predicate PcOk(s: State, u: Tid)
    requires u in s.threads
  {
    var pc := s.threads[u].pc;
    && (forall p :: Holds(pc, p) ==> p in s.q.holder && s.q.holder[p] == u && p !in s.q.home)
    && (pc.Swap? ==> pc.p in s.q.next && s.q.next[pc.p] == None)
    && (pc.Link? ==>
          && pc.p in s.q.home && s.q.home[pc.p] == pc.to
          && pc.p in s.q.pos && pc.p in s.q.holder && s.q.holder[pc.p] == u
          && pc.to in s.q.hist && pc.to in s.q.lo && s.q.lo[pc.to] < s.q.pos[pc.p] < |s.q.hist[pc.to]|
          && s.q.hist[pc.to][s.q.pos[pc.p] - 1] == pc.prev && pc.prev in s.q.next && s.q.next[pc.prev] == None)
  }

  ghost predicate PcsOk(s: State) { forall u {:trigger PcOk(s, u)} :: u in s.threads ==> PcOk(s, u) }

  ghost predicate QueueInv(s: State) { QueuesOk(s) && NodesOk(s) && LinksOk(s) && PcsOk(s) }

  // ---- steps that leave the queues alone ------------------------------------------------------------

  /** Queues unchanged; nobody enters or leaves a state in which the queue matters. */
  ghost predicate Quiet(s: State, s': State) {
    && s'.q == s.q && s'.threads.Keys == s.threads.Keys
    && (forall u :: u in s.threads ==> QuietThread(s, s.threads[u], s'.threads[u]))
  }

  ghost predicate QuietThread(s: State, th: Thread, th': Thread) {
    && (th.life == Freed <==> th'.life == Freed)
    && (th'.pc == th.pc
        || (!th.pc.Link? && !th'.pc.Link? && !th'.pc.Swap? && forall p :: Holds(th'.pc, p) ==> Holds(th.pc, p)))
  }

  lemma QuietKeeps(s: State, s': State)
    requires QueueInv(s) && Quiet(s, s')
    ensures QueueInv(s')
  {
    forall t | t in s'.threads ensures QueueOk(s', t) && PcOk(s', t) {
      assert QueueOk(s, t) && PcOk(s, t) && QuietThread(s, s.threads[t], s'.threads[t]);
    }
    forall n | n in s'.q.home ensures NodeOk(s'.q, n) && s'.q.home[n] in s'.threads { assert NodeOk(s.q, n); }
    forall t, i | t in s'.threads && t in s'.q.hist && 0 <= i < |s'.q.hist[t]| ensures SlotOk(s'.q, t, i) {
      assert SlotOk(s.q, t, i);
    }
    forall t, i | t in s'.threads && t in s'.q.hist && t in s'.q.lo && s'.q.lo[t] <= i < |s'.q.hist[t]|
      ensures LinkOk(s', t, i)
    {
      assert LinkOk(s, t, i);
      if i + 1 < |s.q.hist[t]| {
        var p := s.q.hist[t][i + 1];
        if Linking(s, p, t, s.q.hist[t][i]) {
          assert QuietThread(s, s.threads[s.q.holder[p]], s'.threads[s.q.holder[p]]);
          assert Linking(s', p, t, s.q.hist[t][i]);
        }
      }
    }
  }

  predicate IsQuiet(a: Action) {
    a.ReadOwner? || a.SetHazard? || a.CheckOwner? || a.ClearHazard? || a.Choose? || a.LockList? || a.TakeBlock?
    || a.StartScan? || a.SeeClear? || a.EndScan? || a.Own? || a.Die?
  }

  lemma QuietProduce(s: State, a: Action)
    requires CanProduce(s, a) && IsQuiet(a)
    ensures Quiet(s, Produce(s, a))
  {
    var s' := Produce(s, a);
    assert s'.threads.Keys == s.threads.Keys;
    forall u | u in s.threads ensures QuietThread(s, s.threads[u], s'.threads[u]) {}
  }

  lemma QuietCollect(s: State, a: Action)
    requires CanReap(s, a) && IsQuiet(a)
    ensures Quiet(s, Collect(s, a))
  {}

  lemma QuietLive(s: State, a: Action)
    requires CanLive(s, a) && IsQuiet(a)
    ensures Quiet(s, Live(s, a))
  {}

  // ---- the steps of a push ----------------------------------------------------------------------------

  lemma HomeHeld(s: State)
    requires NodesOk(s)
    ensures forall n :: n in s.q.home ==> n in s.q.holder
  {
    forall n | n in s.q.home ensures n in s.q.holder { assert NodeOk(s.q, n); }
  }

  lemma KeepPush(s: State, t: Tid, p: Node, b: Blk)
    requires QueueInv(s) && CanProduce(s, Push(t, p, b))
    ensures QueueInv(Produce(s, Push(t, p, b)))
  {
    var s' := Produce(s, Push(t, p, b));
    HomeHeld(s);
    forall u | u in s'.threads ensures QueueOk(s', u) && PcOk(s', u) { assert QueueOk(s, u) && PcOk(s, u); }
    forall n | n in s'.q.home ensures NodeOk(s'.q, n) && s'.q.home[n] in s'.threads { assert NodeOk(s.q, n); }
    forall u, i | u in s'.threads && u in s'.q.hist && 0 <= i < |s'.q.hist[u]| ensures SlotOk(s'.q, u, i) {
      assert SlotOk(s.q, u, i);
    }
    forall u, i | u in s'.threads && u in s'.q.hist && u in s'.q.lo && s'.q.lo[u] <= i < |s'.q.hist[u]|
      ensures LinkOk(s', u, i)
    {
      assert LinkOk(s, u, i);
    }
  }

  lemma KeepClear(s: State, t: Tid)
    requires QueueInv(s) && CanProduce(s, ClearNext(t))
    ensures QueueInv(Produce(s, ClearNext(t)))
  {
    var s' := Produce(s, ClearNext(t));
    var p := s.threads[t].pc.p;
    assert PcOk(s, t) && Holds(s.threads[t].pc, p);
    forall u | u in s'.threads ensures QueueOk(s', u) && PcOk(s', u) {
      assert QueueOk(s, u) && PcOk(s, u);
      if u != t && s.threads[u].pc.Swap? { assert Holds(s.threads[u].pc, s.threads[u].pc.p); }
      if u != t && s.threads[u].pc.Link? {
        var pc := s.threads[u].pc;
        assert NodeOk(s.q, pc.p);
        assert SlotOk(s.q, pc.to, s.q.pos[pc.p] - 1);
      }
    }
    forall n | n in s'.q.home ensures NodeOk(s'.q, n) && s'.q.home[n] in s'.threads { assert NodeOk(s.q, n); }
    forall u, i | u in s'.threads && u in s'.q.hist && 0 <= i < |s'.q.hist[u]| ensures SlotOk(s'.q, u, i) {
      assert SlotOk(s.q, u, i);
    }
    forall u, i | u in s'.threads && u in s'.q.hist && u in s'.q.lo && s'.q.lo[u] <= i < |s'.q.hist[u]|
      ensures LinkOk(s', u, i)
    {
      assert LinkOk(s, u, i) && SlotOk(s.q, u, i);
    }
  }

  lemma SwapNodes(s: State, t: Tid)
    requires QueueInv(s) && Protocol(s) && CanProduce(s, SwapTail(t))
    ensures QueuesOk(Produce(s, SwapTail(t))) && NodesOk(Produce(s, SwapTail(t)))
  {
    var s' := Produce(s, SwapTail(t));
    var p, to := s.threads[t].pc.p, s.threads[t].pc.to;
    assert ThreadOk(s, t) && PcOk(s, t) && Committed(s.threads[t].pc, to) && QueueOk(s, to)
             && Holds(s.threads[t].pc, p);
    forall u | u in s'.threads ensures QueueOk(s', u) { assert QueueOk(s, u); }
    forall n | n in s'.q.home ensures NodeOk(s'.q, n) && s'.q.home[n] in s'.threads {
      if n != p { assert NodeOk(s.q, n); }
    }
    forall u, i | u in s'.threads && u in s'.q.hist && 0 <= i < |s'.q.hist[u]| ensures SlotOk(s'.q, u, i) {
      if i < |s.q.hist[u]| { assert SlotOk(s.q, u, i); }
    }
  }

  lemma SwapLinks(s: State, t: Tid)
    requires QueueInv(s) && Protocol(s) && CanProduce(s, SwapTail(t))
    ensures LinksOk(Produce(s, SwapTail(t)))
  {
    var s' := Produce(s, SwapTail(t));
    var p, to := s.threads[t].pc.p, s.threads[t].pc.to;
    assert ThreadOk(s, t) && PcOk(s, t) && Committed(s.threads[t].pc, to) && QueueOk(s, to)
             && Holds(s.threads[t].pc, p);
    forall u, i | u in s'.threads && u in s'.q.hist && u in s'.q.lo && s'.q.lo[u] <= i < |s'.q.hist[u]|
      ensures LinkOk(s', u, i)
    {
      if i < |s.q.hist[u]| {
        assert LinkOk(s, u, i);
        if u == to && i + 1 == |s.q.hist[u]| { assert Linking(s', p, to, s.q.hist[to][i]); }
      }
    }
  }

  lemma SwapPcs(s: State, t: Tid)
    requires QueueInv(s) && Protocol(s) && CanProduce(s, SwapTail(t))
    ensures PcsOk(Produce(s, SwapTail(t)))
  {
    var s' := Produce(s, SwapTail(t));
    var p, to := s.threads[t].pc.p, s.threads[t].pc.to;
    assert ThreadOk(s, t) && PcOk(s, t) && Committed(s.threads[t].pc, to) && QueueOk(s, to)
             && Holds(s.threads[t].pc, p);
    assert LinkOk(s, to, |s.q.hist[to]| - 1);
    forall u | u in s'.threads ensures PcOk(s', u) {
      assert PcOk(s, u);
      if u != t && s.threads[u].pc.Link? { assert NodeOk(s.q, s.threads[u].pc.p); }
    }
  }

  /** Setting `prev->next` closes the one gap this thread opened. */
  lemma LinkKeeps(s: State, t: Tid)
    requires QueueInv(s) && CanProduce(s, SetNext(t))
    ensures LinksOk(Produce(s, SetNext(t)))
  {
    var s' := Produce(s, SetNext(t));
    var pc := s.threads[t].pc;
    assert PcOk(s, t) && NodeOk(s.q, pc.p) && SlotOk(s.q, pc.to, s.q.pos[pc.p] - 1);
    forall u, i | u in s'.threads && u in s'.q.hist && u in s'.q.lo && s'.q.lo[u] <= i < |s'.q.hist[u]|
      ensures LinkOk(s', u, i)
    {
      assert LinkOk(s, u, i) && SlotOk(s.q, u, i);
    }
  }

  lemma KeepSetNext(s: State, t: Tid)
    requires QueueInv(s) && CanProduce(s, SetNext(t))
    ensures QueueInv(Produce(s, SetNext(t)))
  {
    LinkKeeps(s, t);
    var s' := Produce(s, SetNext(t));
    var pc := s.threads[t].pc;
    assert PcOk(s, t) && NodeOk(s.q, pc.p) && SlotOk(s.q, pc.to, s.q.pos[pc.p] - 1);
    forall u | u in s'.threads ensures QueueOk(s', u) && PcOk(s', u) {
      assert QueueOk(s, u) && PcOk(s, u);
      var x := s.threads[u].pc;
      if x.Swap? { assert Holds(x, x.p); }
      if u != t && x.Link? { assert NodeOk(s.q, x.p) && SlotOk(s.q, x.to, s.q.pos[x.p] - 1); }
    }
    forall n | n in s'.q.home ensures NodeOk(s'.q, n) && s'.q.home[n] in s'.threads { assert NodeOk(s.q, n); }
    forall u, i | u in s'.threads && u in s'.q.hist && 0 <= i < |s'.q.hist[u]| ensures SlotOk(s'.q, u, i) {
      assert SlotOk(s.q, u, i);
    }
  }

  // ---- freeing the head of a queue ----------------------------------------------------------------------

  /** A head that points on is followed by the next node of the queue. */
  lemma HeadNext(s: State, d: Tid)
    requires QueueInv(s) && d in s.threads && s.threads[d].life != Freed
    ensures HasQueue(s.q, d) && d in s.q.hist && s.q.lo[d] < |s.q.hist[d]| && s.q.head[d] == s.q.hist[d][s.q.lo[d]]
    ensures s.q.next[s.q.head[d]].Some? ==>
              s.q.lo[d] + 1 < |s.q.hist[d]| && s.q.next[s.q.head[d]].value == s.q.hist[d][s.q.lo[d] + 1]
  {
    assert QueueOk(s, d) && LinkOk(s, d, s.q.lo[d]);
  }

  lemma AdvanceNodes(s: State, q': Queues, d: Tid, n: Node)
    requires NodesOk(s) && d in s.threads && HasQueue(s.q, d) && q' == Advance(s.q, d, n)
    requires d in s.q.hist && s.q.lo[d] < |s.q.hist[d]| && s.q.head[d] == s.q.hist[d][s.q.lo[d]]
    ensures NodesOk(s.(q := q'))
  {
    assert SlotOk(s.q, d, s.q.lo[d]);
    forall m | m in q'.home ensures NodeOk(q', m) && q'.home[m] in s.threads { assert NodeOk(s.q, m); }
    forall u, i | u in s.threads && u in q'.hist && 0 <= i < |q'.hist[u]| ensures SlotOk(q', u, i) {
      assert SlotOk(s.q, u, i);
    }
  }

  lemma KeepAdvance(s: State, d: Tid)
    requires QueueInv(s) && d in s.threads && s.threads[d].life != Freed
    requires HasQueue(s.q, d) && s.q.next[s.q.head[d]].Some?
    ensures QueueInv(s.(q := Advance(s.q, d, s.q.next[s.q.head[d]].value)))
  {
    HeadNext(s, d);
    var s' := s.(q := Advance(s.q, d, s.q.next[s.q.head[d]].value));
    AdvanceNodes(s, s'.q, d, s.q.next[s.q.head[d]].value);
    forall u | u in s'.threads ensures QueueOk(s', u) && PcOk(s', u) { assert QueueOk(s, u) && PcOk(s, u); }
    forall u, i | u in s'.threads && u in s'.q.hist && u in s'.q.lo && s'.q.lo[u] <= i < |s'.q.hist[u]|
      ensures LinkOk(s', u, i)
    {
      assert LinkOk(s, u, i);
    }
  }

  /** While a dead queue is drained its list is complete: a head without successor is the last node. */
  lemma LastNode(s: State, t: Tid)
    requires QueueInv(s) && Protocol(s) && CanReap(s, Finish(t))
    ensures var d := s.threads[t].reap.d;
            d in s.q.hist && s.q.lo[d] + 1 == |s.q.hist[d]| && s.q.head[d] == s.q.hist[d][s.q.lo[d]]
  {
    var d := s.threads[t].reap.d;
    assert ThreadOk(s, t);
    HeadNext(s, d);
    var i := s.q.lo[d];
    assert LinkOk(s, d, i);
    if i + 1 < |s.q.hist[d]| {
      var u := s.q.holder[s.q.hist[d][i + 1]];
      assert Cleared(s.threads[t], u) && Committed(s.threads[u].pc, d);
      assert false;
    }
  }

  lemma FinishNodes(s: State, t: Tid)
    requires QueueInv(s) && Protocol(s) && CanReap(s, Finish(t))
    ensures NodesOk(Collect(s, Finish(t)))
  {
    LastNode(s, t);
    var s' := Collect(s, Finish(t));
    var d := s.threads[t].reap.d;
    AdvanceNodes(s, s'.q, d, s.q.head[d]);
    var m := s.(q := s'.q);
    forall n | n in s'.q.home ensures NodeOk(s'.q, n) && s'.q.home[n] in s'.threads { assert NodeOk(m.q, n); }
    forall u, i | u in s'.threads && u in s'.q.hist && 0 <= i < |s'.q.hist[u]| ensures SlotOk(s'.q, u, i) {
      assert SlotOk(m.q, u, i);
    }
  }

  lemma FinishPcs(s: State, t: Tid)
    requires QueueInv(s) && Protocol(s) && CanReap(s, Finish(t))
    ensures QueuesOk(Collect(s, Finish(t))) && PcsOk(Collect(s, Finish(t)))
  {
    LastNode(s, t);
    var s' := Collect(s, Finish(t));
    var d := s.threads[t].reap.d;
    forall u | u in s'.threads ensures QueueOk(s', u) && PcOk(s', u) {
      assert QueueOk(s, u) && PcOk(s, u);
      assert Cleared(s.threads[t], u) && !Committed(s.threads[u].pc, d);
      assert s'.threads[u].pc == s.threads[u].pc;
    }
  }

  lemma FinishLinks(s: State, t: Tid)
    requires QueueInv(s) && Protocol(s) && CanReap(s, Finish(t))
    ensures LinksOk(Collect(s, Finish(t)))
  {
    LastNode(s, t);
    var s' := Collect(s, Finish(t));
    assert s'.q.next == s.q.next && s'.q.hist == s.q.hist && s'.q.holder == s.q.holder;
    forall u | u in s.threads ensures u in s'.threads && s'.threads[u].pc == s.threads[u].pc {}
    forall u, i | u in s'.threads && u in s'.q.hist && u in s'.q.lo && s'.q.lo[u] <= i < |s'.q.hist[u]|
      ensures LinkOk(s', u, i)
    {
      assert LinkOk(s, u, i);
    }
  }

  // ---- a new thread -------------------------------------------------------------------------------------

  lemma StartNodes(s: State, t: Tid, n: Node)
    requires QueueInv(s) && CanLive(s, Start(t, n))
    ensures NodesOk(Live(s, Start(t, n)))
  {
    HomeHeld(s);
    var s' := Live(s, Start(t, n));
    forall m | m in s'.q.home ensures NodeOk(s'.q, m) && s'.q.home[m] in s'.threads {
      if m != n { assert NodeOk(s.q, m); }
    }
    forall u, i | u in s'.threads && u in s'.q.hist && 0 <= i < |s'.q.hist[u]| ensures SlotOk(s'.q, u, i) {
      if u != t { assert SlotOk(s.q, u, i); }
    }
  }

  lemma StartPcs(s: State, t: Tid, n: Node)
    requires QueueInv(s) && CanLive(s, Start(t, n))
    ensures QueuesOk(Live(s, Start(t, n))) && PcsOk(Live(s, Start(t, n)))
  {
    HomeHeld(s);
    var s' := Live(s, Start(t, n));
    forall u | u in s'.threads ensures QueueOk(s', u) && PcOk(s', u) {
      if u != t {
        assert QueueOk(s, u) && PcOk(s, u);
        var x := s.threads[u].pc;
        if x.Swap? { assert Holds(x, x.p); }
        if x.Link? { assert NodeOk(s.q, x.p) && SlotOk(s.q, x.to, s.q.pos[x.p] - 1); }
      }
    }
  }

  lemma StartLinks(s: State, t: Tid, n: Node)
    requires QueueInv(s) && CanLive(s, Start(t, n))
    ensures LinksOk(Live(s, Start(t, n)))
  {
    HomeHeld(s);
    var s' := Live(s, Start(t, n));
    forall u, i | u in s'.threads && u in s'.q.hist && u in s'.q.lo && s'.q.lo[u] <= i < |s'.q.hist[u]|
      ensures LinkOk(s', u, i)
    {
      if u != t {
        assert LinkOk(s, u, i) && SlotOk(s.q, u, i);
        if i + 1 < |s.q.hist[u]| { assert SlotOk(s.q, u, i + 1); }
      }
    }
  }

  // ---- every step ----------------------------------------------------------------------------------------

  ghost predicate Inv(s: State) { Protocol(s) && QueueInv(s) }

  lemma InvProduce(s: State, a: Action)
    requires Inv(s) && CanProduce(s, a)
    ensures QueueInv(Produce(s, a))
  {
    if IsQuiet(a) { QuietProduce(s, a); QuietKeeps(s, Produce(s, a)); }
    else if a.Push? { KeepPush(s, a.t, a.p, a.b); }
    else if a.ClearNext? { KeepClear(s, a.t); }
    else if a.SetNext? { KeepSetNext(s, a.t); }
    else { SwapNodes(s, a.t); SwapLinks(s, a.t); SwapPcs(s, a.t); }
  }

  lemma InvCollect(s: State, a: Action)
    requires Inv(s) && CanReap(s, a)
    ensures QueueInv(Collect(s, a))
  {
    if IsQuiet(a) { QuietCollect(s, a); QuietKeeps(s, Collect(s, a)); }
    else if a.DrainHead? { assert ThreadOk(s, a.t); KeepAdvance(s, s.threads[a.t].reap.d); }
    else { FinishNodes(s, a.t); FinishPcs(s, a.t); FinishLinks(s, a.t); }
  }

  lemma InvLive(s: State, a: Action)
    requires Inv(s) && CanLive(s, a)
    ensures QueueInv(Live(s, a))
  {
    if IsQuiet(a) { QuietLive(s, a); QuietKeeps(s, Live(s, a)); }
    else if a.Start? { StartNodes(s, a.t, a.n); StartPcs(s, a.t, a.n); StartLinks(s, a.t, a.n); }
    else { KeepAdvance(s, a.t); }
  }

  lemma InvStep(s: State, a: Action)
    requires Inv(s) && Enabled(s, a)
    ensures Inv(Step(s, a))
  {
    ProtocolStep(s, a);
    if CanProduce(s, a) { InvProduce(s, a); } else if CanReap(s, a) { InvCollect(s, a); } else { InvLive(s, a); }
  }
}
