/** What every run of the remote-free protocol guarantees. */
module HazardRuns {
  import opened Options
  import opened HazardQueue
  import opened HazardSafety
  import opened HazardQueues

  ghost predicate Legal(s: State, run: seq<Action>)
    decreases |run|
  {
    run == [] || (Enabled(s, run[0]) && Legal(Step(s, run[0]), run[1..]))
  }

  ghost function After(s: State, run: seq<Action>): State
    requires Legal(s, run)
    decreases |run|
  {
    if run == [] then s else After(Step(s, run[0]), run[1..])
  }

  // ---- no free is lost --------------------------------------------------------------------------------

  /** A node that was picked up is on a queue, or still in the hands of the thread that picked it up. */
  ghost predicate Kept(s: State, n: Node) {
    n in s.q.holder ==>
      n in s.q.home || (s.q.holder[n] in s.threads && Holds(s.threads[s.q.holder[n]].pc, n))
  }

  ghost predicate AllKept(s: State) { forall n {:trigger Kept(s, n)} :: Kept(s, n) }

  lemma KeptProduce(s: State, a: Action)
    requires AllKept(s) && CanProduce(s, a)
    ensures AllKept(Produce(s, a))
  {
    forall n ensures Kept(Produce(s, a), n) { assert Kept(s, n); }
  }

  lemma KeptStep(s: State, a: Action)
    requires AllKept(s) && Enabled(s, a)
    ensures AllKept(Step(s, a))
  {
    if CanProduce(s, a) { KeptProduce(s, a); }
    else {
      var s' := Step(s, a);
      forall u | u in s.threads ensures u in s'.threads && s'.threads[u].pc == s.threads[u].pc {}
      forall n ensures Kept(s', n) { assert Kept(s, n); }
    }
  }

  lemma {:induction false} RunInv(s: State, run: seq<Action>)
    requires Inv(s) && AllKept(s) && Legal(s, run)
    ensures Inv(After(s, run)) && AllKept(After(s, run))
    decreases |run|
  {
    if run != [] {
      InvStep(s, run[0]);
      KeptStep(s, run[0]);
      RunInv(Step(s, run[0]), run[1..]);
    }
  }

  /** The invariants hold in every reachable state. */
  lemma Reachable(run: seq<Action>)
    requires Legal(INITIAL, run)
    ensures Inv(After(INITIAL, run)) && AllKept(After(INITIAL, run))
  {
    RunInv(INITIAL, run);
  }

  // ---- nobody touches memory of a reaped thread ---------------------------------------------------------

  /** Every write of a push acts on memory that is still there: on a thread whose data is not freed and which no
      reaper has begun to drain, and on nodes that have not been freed. */
  lemma PushSafe(s: State, t: Tid)
    requires Inv(s) && Runs(s, t) && (s.threads[t].pc.Clear? || s.threads[t].pc.Swap? || s.threads[t].pc.Link?)
    ensures var d := s.threads[t].pc.to;
            && d in s.threads && s.threads[d].life != Freed
            && forall r :: r in s.threads ==> s.threads[r].reap != Draining(d)
    ensures s.threads[t].pc.p !in s.q.freed
    ensures s.threads[t].pc.Link? ==>
              && s.threads[t].pc.prev !in s.q.freed
              && s.threads[t].pc.prev in s.q.next && s.q.next[s.threads[t].pc.prev] == None
  {
    var pc := s.threads[t].pc;
    assert ThreadOk(s, t) && PcOk(s, t) && Committed(pc, pc.to);
    forall r | r in s.threads ensures s.threads[r].reap != Draining(pc.to) {
      assert Cleared(s.threads[r], t) ==> !Committed(pc, s.threads[r].reap.d);
    }
    if !pc.Link? { assert Holds(pc, pc.p); }
    else { assert NodeOk(s.q, pc.p) && SlotOk(s.q, pc.to, s.q.pos[pc.p] - 1) && NodeOk(s.q, pc.prev); }
  }

  /** The reaper's scan is over, or the thread is gone. */
  ghost predicate Sealed(s: State, d: Tid) {
    && d in s.threads && d in s.q.hist
    && (s.threads[d].life == Freed || exists r :: r in s.threads && s.threads[r].reap == Draining(d))
  }

  lemma SealedProduce(s: State, a: Action, d: Tid)
    requires Inv(s) && Sealed(s, d) && CanProduce(s, a)
    ensures Sealed(Produce(s, a), d) && Produce(s, a).q.hist[d] == s.q.hist[d]
  {
    var s' := Produce(s, a);
    if s.threads[d].life != Freed {
      var r :| r in s.threads && s.threads[r].reap == Draining(d);
      assert s'.threads[r].reap == Draining(d);
    }
    if a.SwapTail? { PushSafe(s, a.t); }
  }

  lemma SealedCollect(s: State, a: Action, d: Tid)
    requires Inv(s) && Sealed(s, d) && CanReap(s, a)
    ensures Sealed(Collect(s, a), d) && Collect(s, a).q.hist[d] == s.q.hist[d]
  {
    var s' := Collect(s, a);
    assert ThreadOk(s, a.t);
    if s.threads[d].life != Freed {
      var r :| r in s.threads && s.threads[r].reap == Draining(d);
      assert ThreadOk(s, r);
      assert s'.threads[d].life == Freed || s'.threads[r].reap == Draining(d);
    }
  }

  lemma SealedLive(s: State, a: Action, d: Tid)
    requires Inv(s) && Sealed(s, d) && CanLive(s, a)
    ensures Sealed(Live(s, a), d) && Live(s, a).q.hist[d] == s.q.hist[d]
  {
    var s' := Live(s, a);
    if s.threads[d].life != Freed {
      var r :| r in s.threads && s.threads[r].reap == Draining(d);
      assert ThreadOk(s, r);
      assert s'.threads[r].reap == Draining(d);
    }
  }

  /** Once the scan of the hazard pointers is over, no later step of any run adds to the queue. */
  lemma {:induction false} SealedForever(s: State, run: seq<Action>, d: Tid)
    requires Inv(s) && Sealed(s, d) && Legal(s, run)
    ensures Sealed(After(s, run), d) && After(s, run).q.hist[d] == s.q.hist[d]
    decreases |run|
  {
    if run != [] {
      var a := run[0];
      if CanProduce(s, a) { SealedProduce(s, a, d); }
      else if CanReap(s, a) { SealedCollect(s, a, d); }
      else { SealedLive(s, a, d); }
      InvStep(s, a);
      SealedForever(Step(s, a), run[1..], d);
    }
  }

  // ---- every node is freed once, in order, and none is left behind ----------------------------------------

  /** The freed nodes of a queue are exactly the first `lo` that were pushed. */
  lemma FreedInOrder(s: State, d: Tid, n: Node)
    requires Inv(s) && d in s.threads
    ensures d in s.q.hist && d in s.q.lo && s.q.lo[d] <= |s.q.hist[d]|
    ensures n in s.q.hist[d][..s.q.lo[d]] <==> n in s.q.freed && n in s.q.home && s.q.home[n] == d
  {
    assert QueueOk(s, d);
    var h, l := s.q.hist[d], s.q.lo[d];
    if n in s.q.freed && n in s.q.home && s.q.home[n] == d {
      assert NodeOk(s.q, n) && h[..l][s.q.pos[n]] == n;
    }
    if n in h[..l] {
      var i :| 0 <= i < l && h[..l][i] == n;
      assert SlotOk(s.q, d, i) && NodeOk(s.q, n);
    }
  }

  lemma HeadUnfreed(s: State, d: Tid)
    requires Inv(s) && d in s.threads && s.threads[d].life != Freed
    ensures d in s.q.head && s.q.head[d] in s.q.home && s.q.head[d] !in s.q.freed
  {
    HeadNext(s, d);
    assert SlotOk(s.q, d, s.q.lo[d]) && NodeOk(s.q, s.q.head[d]);
  }

  /** The nodes handed to the allocator by a step. */
  ghost function Handed(s: State, a: Action): set<Node>
    requires Enabled(s, a)
  {
    if CanLive(s, a) && a.FreeHead? then {s.q.head[a.t]}
    else if CanReap(s, a) && (a.DrainHead? || a.Finish?) then {s.q.head[s.threads[a.t].reap.d]}
    else {}
  }

  lemma LiveFrees(s: State, a: Action)
    requires Inv(s) && CanLive(s, a)
    ensures Handed(s, a) !! s.q.freed && Live(s, a).q.freed == s.q.freed + Handed(s, a)
  {
    if a.FreeHead? { HeadUnfreed(s, a.t); }
  }

  lemma ReapFrees(s: State, a: Action)
    requires Inv(s) && CanReap(s, a)
    ensures Handed(s, a) !! s.q.freed && Collect(s, a).q.freed == s.q.freed + Handed(s, a)
  {
    if a.DrainHead? || a.Finish? {
      assert ThreadOk(s, a.t);
      HeadUnfreed(s, s.threads[a.t].reap.d);
    }
  }

  /** No node is ever handed to the allocator twice. */
  lemma FreedOnce(s: State, a: Action)
    requires Inv(s) && Enabled(s, a)
    ensures Handed(s, a) !! s.q.freed && Step(s, a).q.freed == s.q.freed + Handed(s, a)
  {
    if CanReap(s, a) { ReapFrees(s, a); } else if CanLive(s, a) { LiveFrees(s, a); }
  }

  /** The step that frees a reaped thread is taken exactly when all the rest of its queue has been freed;
      after it every node that was ever pushed to the thread is free. */
  lemma NothingLeft(s: State, d: Tid, n: Node)
    requires Inv(s) && d in s.threads && s.threads[d].life == Freed && n in s.q.home && s.q.home[n] == d
    ensures n in s.q.freed
  {
    assert QueueOk(s, d) && NodeOk(s.q, n);
  }

  /** The whole story: in every reachable state each remote free is in flight in the thread that issued
      it, waits on a queue of a thread that is not gone, or has been freed. */
  lemma Accounted(run: seq<Action>, n: Node)
    requires Legal(INITIAL, run) && n in After(INITIAL, run).q.holder
    ensures var s := After(INITIAL, run);
            || (Runs(s, s.q.holder[n]) && Holds(s.threads[s.q.holder[n]].pc, n) && n !in s.q.freed)
            || (n in s.q.home && s.q.home[n] in s.threads && (n in s.q.freed || s.threads[s.q.home[n]].life != Freed))
  {
    Reachable(run);
    var s := After(INITIAL, run);
    assert Kept(s, n);
    if n in s.q.home {
      assert NodeOk(s.q, n) && QueueOk(s, s.q.home[n]);
    } else {
      assert ThreadOk(s, s.q.holder[n]);
    }
  }
}
