/** Safety of the hazard-pointer protocol over every run. */
module HazardSafety {
  import opened Options
  import opened HazardQueue

  // ---- who may touch whose queue ------------------------------------------------------------------

  predicate Marks(pc: Pc) { pc.Clear? || pc.Swap? || pc.Link? || pc.Unmark? }

  ghost predicate ThreadOk(s: State, t: Tid)
    requires t in s.threads
  {
    var th := s.threads[t];
    && (th.life != Running ==> th.pc.Idle? && th.reap.NotReaping?)
    && (Marks(th.pc) ==> th.hazard == Some(th.pc.to) && th.pc.to in s.threads)
    && (th.pc.Check? ==> th.hazard == Some(th.pc.seen))
    && (th.pc.Read? || th.pc.Mark? || th.pc.Check? ==> th.pc.b in s.owner)
    && (th.life == Running || th.life == Dead ==> t in s.hlist)
    && (!th.reap.NotReaping? ==> th.reap.d in s.threads && s.threads[th.reap.d].life == Taken)
    && (th.reap.Merging? || th.reap.Scanning? <==> s.hlock == Some(t))
  }

  /** From the start of the hazard scan on, `d` is being closed by `th`. */
  predicate Closing(th: Thread, d: Tid) { (th.reap.Scanning? || th.reap.Draining?) && th.reap.d == d }

  /** The hazard of `u` has been checked against `d` by the reaper `th`. */
  predicate Cleared(th: Thread, u: Tid) { th.reap.Draining? || (th.reap.Scanning? && u !in th.reap.todo) }

  ghost predicate OneReaper(s: State) {
    forall t, u {:trigger SameTarget(s.threads[t], s.threads[u])} ::
      t in s.threads && u in s.threads && SameTarget(s.threads[t], s.threads[u]) ==> t == u
  }

  predicate SameTarget(a: Thread, b: Thread) {
    !a.reap.NotReaping? && !b.reap.NotReaping? && a.reap.d == b.reap.d
  }

  ghost predicate OwnersOpen(s: State) {
    && (forall b :: b in s.owner ==> s.owner[b] in s.threads && s.threads[s.owner[b]].life != Freed)
    && (forall b, r {:trigger Closing(s.threads[r], s.owner[b])} :: b in s.owner && r in s.threads ==>
        !Closing(s.threads[r], s.owner[b]))
  }

  /** Nobody is past the check on a queue whose hazard it has been cleared of, or that is gone. */
  ghost predicate NoStray(s: State) {
    && (forall r, u {:trigger Cleared(s.threads[r], u)} ::
        r in s.threads && u in s.threads && Cleared(s.threads[r], u) ==>
          !Committed(s.threads[u].pc, s.threads[r].reap.d))
    && (forall d, u {:trigger Committed(s.threads[u].pc, d)} ::
        d in s.threads && u in s.threads && s.threads[d].life == Freed ==> !Committed(s.threads[u].pc, d))
  }

  ghost predicate Protocol(s: State) {
    && (forall t {:trigger ThreadOk(s, t)} :: t in s.threads ==> ThreadOk(s, t))
    && (s.hlock.Some? ==> s.hlock.value in s.threads)
    && OneReaper(s) && OwnersOpen(s) && NoStray(s)
  }

  /** Only the program counter and the hazard of `t` change, and `t` commits to nothing that is closed. */
  ghost predicate PcStep(s: State, s': State, t: Tid) {
    && t in s.threads && s'.threads.Keys == s.threads.Keys
    && (forall u :: u in s.threads && u != t ==> s'.threads[u] == s.threads[u])
    && s'.threads[t].life == s.threads[t].life && s'.threads[t].reap == s.threads[t].reap
    && s'.owner == s.owner && s'.hlock == s.hlock && s'.hlist == s.hlist
    && ThreadOk(s', t)
    && (forall d :: d in s.threads && Committed(s'.threads[t].pc, d) ==>
        Committed(s.threads[t].pc, d) || d in s.owner.Values)
  }

  lemma PcKeepsReaping(s: State, s': State, t: Tid)
    requires Protocol(s) && PcStep(s, s', t)
    ensures OneReaper(s') && OwnersOpen(s')
  {
    forall r | r in s.threads
      ensures s'.threads[r].reap == s.threads[r].reap && s'.threads[r].life == s.threads[r].life
    {}
    forall r, u | r in s'.threads && u in s'.threads && SameTarget(s'.threads[r], s'.threads[u]) ensures r == u {
      assert SameTarget(s.threads[r], s.threads[u]);
    }
    forall b, r | b in s'.owner && r in s'.threads ensures !Closing(s'.threads[r], s'.owner[b]) {
      assert !Closing(s.threads[r], s.owner[b]);
    }
  }

  lemma PcKeepsStray(s: State, s': State, t: Tid)
    requires Protocol(s) && PcStep(s, s', t)
    ensures NoStray(s')
  {
    forall r | r in s.threads
      ensures s'.threads[r].reap == s.threads[r].reap && s'.threads[r].life == s.threads[r].life
    {}
    forall r, u | r in s'.threads && u in s'.threads && Cleared(s'.threads[r], u)
      ensures !Committed(s'.threads[u].pc, s'.threads[r].reap.d)
    {
      var d := s.threads[r].reap.d;
      assert Cleared(s.threads[r], u);
      assert ThreadOk(s, r);
      forall b | b in s.owner ensures s.owner[b] != d {
        assert !Closing(s.threads[r], s.owner[b]);
      }
    }
    forall d, u | d in s'.threads && u in s'.threads && s'.threads[d].life == Freed
      ensures !Committed(s'.threads[u].pc, d)
    {
      assert !Committed(s.threads[u].pc, d);
    }
  }

  lemma PcKeeps(s: State, s': State, t: Tid)
    requires Protocol(s) && PcStep(s, s', t)
    ensures Protocol(s')
  {
    PcKeepsReaping(s, s', t);
    PcKeepsStray(s, s', t);
    forall u | u in s'.threads ensures ThreadOk(s', u) {
      assert ThreadOk(s, u);
    }
  }

  lemma ProducerIsPcStep(s: State, a: Action)
    requires CanProduce(s, a) && ThreadOk(s, a.t) && forall b :: b in s.owner ==> s.owner[b] in s.threads
    ensures PcStep(s, Produce(s, a), a.t)
  {
    var s' := Produce(s, a);
    assert s'.threads.Keys == s.threads.Keys;
    assert ThreadOk(s', a.t);
  }

  lemma ProtocolProducer(s: State, a: Action)
    requires Protocol(s) && CanProduce(s, a)
    ensures Protocol(Produce(s, a))
  {
    assert ThreadOk(s, a.t);
    ProducerIsPcStep(s, a);
    PcKeeps(s, Produce(s, a), a.t);
  }

  lemma ChooseThreads(s: State, t: Tid, d: Tid)
    requires Protocol(s) && CanReap(s, Choose(t, d))
    ensures var s' := Collect(s, Choose(t, d));
            forall v {:trigger ThreadOk(s', v)} :: v in s'.threads ==> ThreadOk(s', v)
    ensures OneReaper(Collect(s, Choose(t, d)))
  {
    var s' := Collect(s, Choose(t, d));
    forall v | v in s.threads ensures ThreadOk(s, v) && ThreadOk(s', v) { assert ThreadOk(s, v); }
    forall v, w | v in s'.threads && w in s'.threads && SameTarget(s'.threads[v], s'.threads[w]) ensures v == w {
      assert SameTarget(s.threads[v], s.threads[w]) ==> v == w;
    }
  }

  lemma ProtocolChoose(s: State, t: Tid, d: Tid)
    requires Protocol(s) && CanReap(s, Choose(t, d))
    ensures Protocol(Collect(s, Choose(t, d)))
  {
    ChooseThreads(s, t, d);
    var s' := Collect(s, Choose(t, d));
    forall x, r | x in s'.owner && r in s'.threads ensures !Closing(s'.threads[r], s'.owner[x]) {
      assert !Closing(s.threads[r], s.owner[x]);
    }
    forall r, v | r in s'.threads && v in s'.threads && Cleared(s'.threads[r], v)
      ensures !Committed(s'.threads[v].pc, s'.threads[r].reap.d)
    {
      assert Cleared(s.threads[r], v) ==> !Committed(s.threads[v].pc, s.threads[r].reap.d);
    }
  }

  lemma ProtocolLockList(s: State, t: Tid)
    requires Protocol(s) && CanReap(s, LockList(t))
    ensures Protocol(Collect(s, LockList(t)))
  {
    var s' := Collect(s, LockList(t));
    assert ThreadOk(s, t);
    forall v | v in s'.threads ensures ThreadOk(s', v) { if v in s.threads { assert ThreadOk(s, v); } }
    forall v, w | v in s'.threads && w in s'.threads && SameTarget(s'.threads[v], s'.threads[w]) ensures v == w {
      if v in s.threads && w in s.threads { assert SameTarget(s.threads[v], s.threads[w]) ==> v == w; }
    }
  }

  lemma ProtocolTakeBlock(s: State, t: Tid, b: Blk)
    requires Protocol(s) && CanReap(s, TakeBlock(t, b))
    ensures Protocol(Collect(s, TakeBlock(t, b)))
  {
    var s' := Collect(s, TakeBlock(t, b));
    forall v | v in s'.threads ensures ThreadOk(s', v) { if v in s.threads { assert ThreadOk(s, v); } }
  }

  lemma ProtocolStartScan(s: State, t: Tid)
    requires Protocol(s) && CanReap(s, StartScan(t))
    ensures Protocol(Collect(s, StartScan(t)))
  {
    var s' := Collect(s, StartScan(t));
    forall v | v in s'.threads ensures ThreadOk(s', v) { if v in s.threads { assert ThreadOk(s, v); } }
    forall v, w | v in s'.threads && w in s'.threads && SameTarget(s'.threads[v], s'.threads[w]) ensures v == w {
      if v in s.threads && w in s.threads { assert SameTarget(s.threads[v], s.threads[w]) ==> v == w; }
    }
  }

  lemma ProtocolSeeClear(s: State, t: Tid, u: Tid)
    requires Protocol(s) && CanReap(s, SeeClear(t, u))
    ensures Protocol(Collect(s, SeeClear(t, u)))
  {
    var s' := Collect(s, SeeClear(t, u));
    forall v | v in s'.threads ensures ThreadOk(s', v) { if v in s.threads { assert ThreadOk(s, v); } }
    forall v, w | v in s'.threads && w in s'.threads && SameTarget(s'.threads[v], s'.threads[w]) ensures v == w {
      if v in s.threads && w in s.threads { assert SameTarget(s.threads[v], s.threads[w]) ==> v == w; }
    }
    forall x, r | x in s'.owner && r in s'.threads ensures !Closing(s'.threads[r], s'.owner[x]) {
      if x in s.owner && r in s.threads { assert !Closing(s.threads[r], s.owner[x]); }
    }
    forall r, v | r in s'.threads && v in s'.threads && Cleared(s'.threads[r], v)
      ensures !Committed(s'.threads[v].pc, s'.threads[r].reap.d)
    {
      if r in s.threads && v in s.threads {
        assert Cleared(s.threads[r], v) ==> !Committed(s.threads[v].pc, s.threads[r].reap.d);
      }
    }
  }

  lemma ProtocolEndScan(s: State, t: Tid)
    requires Protocol(s) && CanReap(s, EndScan(t))
    ensures Protocol(Collect(s, EndScan(t)))
  {
    var s' := Collect(s, EndScan(t));
    assert ThreadOk(s, t);
    forall v | v in s'.threads ensures ThreadOk(s', v) { if v in s.threads { assert ThreadOk(s, v); } }
    forall v, w | v in s'.threads && w in s'.threads && SameTarget(s'.threads[v], s'.threads[w]) ensures v == w {
      if v in s.threads && w in s.threads { assert SameTarget(s.threads[v], s.threads[w]) ==> v == w; }
    }
    forall x, r | x in s'.owner && r in s'.threads ensures !Closing(s'.threads[r], s'.owner[x]) {
      if x in s.owner && r in s.threads { assert !Closing(s.threads[r], s.owner[x]); }
    }
    forall r, v | r in s'.threads && v in s'.threads && Cleared(s'.threads[r], v)
      ensures !Committed(s'.threads[v].pc, s'.threads[r].reap.d)
    {
      if r in s.threads && v in s.threads {
        assert Cleared(s.threads[r], v) ==> !Committed(s.threads[v].pc, s.threads[r].reap.d);
      }
    }
  }

  lemma FinishThreads(s: State, t: Tid)
    requires Protocol(s) && CanReap(s, Finish(t))
    ensures var s' := Collect(s, Finish(t)); forall v {:trigger ThreadOk(s', v)} :: v in s'.threads ==> ThreadOk(s', v)
    ensures OneReaper(Collect(s, Finish(t)))
  {
    var s' := Collect(s, Finish(t));
    assert ThreadOk(s, t);
    forall v | v in s'.threads ensures ThreadOk(s', v) {
      assert ThreadOk(s, v) && (SameTarget(s.threads[v], s.threads[t]) ==> v == t);
    }
    forall v, w | v in s'.threads && w in s'.threads && SameTarget(s'.threads[v], s'.threads[w]) ensures v == w {
      assert SameTarget(s.threads[v], s.threads[w]) ==> v == w;
    }
  }

  lemma FinishOwners(s: State, t: Tid)
    requires Protocol(s) && CanReap(s, Finish(t))
    ensures OwnersOpen(Collect(s, Finish(t)))
  {
    var s' := Collect(s, Finish(t));
    forall x | x in s'.owner ensures s'.threads[s'.owner[x]].life != Freed {
      assert !Closing(s.threads[t], s.owner[x]);
    }
    forall x, r | x in s'.owner && r in s'.threads ensures !Closing(s'.threads[r], s'.owner[x]) {
      assert !Closing(s.threads[r], s.owner[x]);
    }
  }

  lemma FinishStray(s: State, t: Tid)
    requires Protocol(s) && CanReap(s, Finish(t))
    ensures NoStray(Collect(s, Finish(t)))
  {
    var s' := Collect(s, Finish(t));
    forall r, v | r in s'.threads && v in s'.threads && Cleared(s'.threads[r], v)
      ensures !Committed(s'.threads[v].pc, s'.threads[r].reap.d)
    {
      assert Cleared(s.threads[r], v) ==> !Committed(s.threads[v].pc, s.threads[r].reap.d);
    }
    forall e, v | e in s'.threads && v in s'.threads && s'.threads[e].life == Freed
      ensures !Committed(s'.threads[v].pc, e)
    {
      assert Cleared(s.threads[t], v) && (s.threads[e].life == Freed ==> !Committed(s.threads[v].pc, e));
    }
  }

  lemma ProtocolFinish(s: State, t: Tid)
    requires Protocol(s) && CanReap(s, Finish(t))
    ensures Protocol(Collect(s, Finish(t)))
  {
    FinishThreads(s, t);
    FinishOwners(s, t);
    FinishStray(s, t);
    var s' := Collect(s, Finish(t));
    assert s'.hlock.Some? ==> s'.hlock.value in s'.threads;
  }

  lemma ProtocolStart(s: State, t: Tid, n: Node)
    requires Protocol(s) && CanLive(s, Start(t, n))
    ensures Protocol(Live(s, Start(t, n)))
  {
    var s' := Live(s, Start(t, n));
    forall v | v in s'.threads ensures ThreadOk(s', v) { if v in s.threads { assert ThreadOk(s, v); } }
  }

  lemma ProtocolOwn(s: State, t: Tid, b: Blk)
    requires Protocol(s) && CanLive(s, Own(t, b))
    ensures Protocol(Live(s, Own(t, b)))
  {
    var s' := Live(s, Own(t, b));
    forall v | v in s'.threads ensures ThreadOk(s', v) { if v in s.threads { assert ThreadOk(s, v); } }
  }

  lemma ProtocolDie(s: State, t: Tid)
    requires Protocol(s) && CanLive(s, Die(t))
    ensures Protocol(Live(s, Die(t)))
  {
    var s' := Live(s, Die(t));
    forall v | v in s'.threads ensures ThreadOk(s', v) { if v in s.threads { assert ThreadOk(s, v); } }
  }

  lemma ProtocolStep(s: State, a: Action)
    requires Protocol(s) && Enabled(s, a)
    ensures Protocol(Step(s, a))
  {
    if CanProduce(s, a) { ProtocolProducer(s, a); }
    else if CanReap(s, a) {
      match a
      case Choose(t, d) => ProtocolChoose(s, t, d);
      case LockList(t) => ProtocolLockList(s, t);
      case TakeBlock(t, b) => ProtocolTakeBlock(s, t, b);
      case StartScan(t) => ProtocolStartScan(s, t);
      case SeeClear(t, u) => ProtocolSeeClear(s, t, u);
      case EndScan(t) => ProtocolEndScan(s, t);
      case Finish(t) => ProtocolFinish(s, t);
      case DrainHead(t) => ProtocolQueues(s, Collect(s, a));
    } else {
      match a
      case Start(t, n) => ProtocolStart(s, t, n);
      case Own(t, b) => ProtocolOwn(s, t, b);
      case Die(t) => ProtocolDie(s, t);
      case FreeHead(t) => ProtocolQueues(s, Live(s, a));
    }
  }

  lemma ProtocolQueues(s: State, s': State)
    requires Protocol(s) && s' == s.(q := s'.q)
    ensures Protocol(s')
  {
    forall v | v in s'.threads ensures ThreadOk(s', v) { assert ThreadOk(s, v); }
  }
}
