/** Mutual exclusion of the spin lock, and what it means for the index. */
module LiveIndexRuns {
  import opened LiveIndex

  function CountedSet(pc: map<nat, Pc>): set<nat> { set t | t in pc && Counted(pc[t]) }

  /** `readers_count` is the number of readers that have incremented it and not yet decremented it. */
  ghost predicate LockInv(s: State) {
    && s.readers == |CountedSet(s.pc)|
    && (s.writing <==> exists t :: t in s.pc && Claimed(s.pc[t]))
    && (forall t, u :: t in s.pc && u in s.pc && Claimed(s.pc[t]) && Claimed(s.pc[u]) ==> t == u)
    && (forall t, u :: t in s.pc && u in s.pc && Writing(s.pc[t]) ==> !Reading(s.pc[u]))
  }

  lemma CountedMove(pc: map<nat, Pc>, t: nat, x: Pc)
    requires t in pc
    ensures CountedSet(pc[t := x]) == if Counted(x) then CountedSet(pc) + {t} else CountedSet(pc) - {t}
  {}

  lemma NobodyCounted(s: State, u: nat)
    requires s.readers == |CountedSet(s.pc)| && s.readers == 0 && u in s.pc
    ensures !Reading(s.pc[u])
  {
    assert u !in CountedSet(s.pc);
  }

  /** A step of thread `t` of which only the effect on the lock matters. */
  ghost predicate LockStep(s: State, s': State, t: nat) {
    && t in s.pc && t in s'.pc && s'.pc == s.pc[t := s'.pc[t]]
    && s'.readers == s.readers + (if Counted(s'.pc[t]) then 1 else 0) - (if Counted(s.pc[t]) then 1 else 0)
    && (Claimed(s'.pc[t]) ==> s'.writing && (Claimed(s.pc[t]) || !s.writing))
    && (!Claimed(s'.pc[t]) ==> s'.writing == (s.writing && !Claimed(s.pc[t])))
    && (Reading(s'.pc[t]) ==> Reading(s.pc[t]) || !s.writing)
    && (Writing(s'.pc[t]) ==> Writing(s.pc[t]) || s.readers == 0)
  }

  lemma ReadIsLockStep(s: State, t: nat)
    requires Enabled(s, Go(t)) && !IsWriter(s.pc[t])
    ensures LockStep(s, Read(s, t), t)
  {}

  lemma WriteIsLockStep(s: State, t: nat)
    requires Enabled(s, Go(t)) && IsWriter(s.pc[t]) && (Claimed(s.pc[t]) ==> s.writing)
    ensures LockStep(s, Write(s, t), t)
  {}

  lemma StepIsLockStep(s: State, a: Action)
    requires Enabled(s, a) && (Claimed(s.pc[a.t]) ==> s.writing)
    ensures LockStep(s, Step(s, a), a.t)
  {
    if a.Go? { if IsWriter(s.pc[a.t]) { WriteIsLockStep(s, a.t); } else { ReadIsLockStep(s, a.t); } }
  }

  lemma LockKeeps(s: State, s': State, t: nat)
    requires LockInv(s) && LockStep(s, s', t)
    ensures LockInv(s')
  {
    CountedMove(s.pc, t, s'.pc[t]);
    WritingKeeps(s, s', t);
    ApartKeeps(s, s', t);
  }

  lemma WritingKeeps(s: State, s': State, t: nat)
    requires LockInv(s) && LockStep(s, s', t)
    ensures s'.writing <==> exists u :: u in s'.pc && Claimed(s'.pc[u])
    ensures forall u, v :: u in s'.pc && v in s'.pc && Claimed(s'.pc[u]) && Claimed(s'.pc[v]) ==> u == v
  {
    if s.writing {
      var o :| o in s.pc && Claimed(s.pc[o]);
      assert o in s'.pc && (o != t ==> Claimed(s'.pc[o]));
    }
    if Claimed(s'.pc[t]) { assert t in s'.pc; }
  }

  lemma ApartKeeps(s: State, s': State, t: nat)
    requires LockInv(s) && LockStep(s, s', t)
    ensures forall u, v :: u in s'.pc && v in s'.pc && Writing(s'.pc[u]) ==> !Reading(s'.pc[v])
  {
    forall u, v | u in s'.pc && v in s'.pc && Writing(s'.pc[u]) ensures !Reading(s'.pc[v]) {
      if u == t && !Writing(s.pc[t]) {
        assert Claimed(s'.pc[t]);
        if v != t { NobodyCounted(s, v); }
      } else {
        assert Writing(s.pc[u]) && Claimed(s.pc[u]) && s.writing;
        assert !Reading(s.pc[v]);
      }
    }
  }

  // ---- the index ---------------------------------------------------------------------------------------

  /** A reader's intermediate results are about the index as it is now. */
  ghost predicate Current(s: State, pc: Pc) {
    && (pc.Entry? ==> pc.k == Pred(s.alive, pc.addr))
    && (pc.Leave? ==> pc.r == Check(s.alive, pc.addr, Pred(s.alive, pc.addr)))
  }

  ghost predicate IndexInv(s: State) {
    && Disjoint(s.alive)
    && (s.torn <==> exists t :: t in s.pc && s.pc[t].Finish?)
    && (forall t :: t in s.pc ==> Current(s, s.pc[t]))
  }

  /** No reader looks at a half-changed index, nor holds a position in it that has gone stale. */
  lemma ReadersSafe(s: State, t: nat)
    requires LockInv(s) && IndexInv(s) && t in s.pc && Reading(s.pc[t])
    ensures !s.torn && Enabled(s, Go(t))
  {
    forall u | u in s.pc ensures !Writing(s.pc[u]) {}
  }

  predicate Begins(s: State, a: Action) { a.Go? && a.t in s.pc && s.pc[a.t].Update? }
  predicate Ends(s: State, a: Action) { a.Go? && a.t in s.pc && s.pc[a.t].Finish? }

  /** Most steps leave the index alone. */
  lemma OtherSteps(s: State, a: Action)
    requires Enabled(s, a) && !Begins(s, a) && !Ends(s, a) && Current(s, s.pc[a.t])
    ensures var s' := Step(s, a);
            && s'.alive == s.alive && s'.torn == s.torn && s'.pc == s.pc[a.t := s'.pc[a.t]] && a.t in s'.pc
            && !s.pc[a.t].Finish? && !s'.pc[a.t].Finish? && Current(s', s'.pc[a.t])
  {}

  lemma OtherKeeps(s: State, a: Action)
    requires IndexInv(s) && Enabled(s, a) && !Begins(s, a) && !Ends(s, a)
    ensures IndexInv(Step(s, a))
  {
    var s' := Step(s, a);
    OtherSteps(s, a);
    forall t | t in s'.pc ensures Current(s', s'.pc[t]) { if t != a.t { assert Current(s, s.pc[t]); } }
    if s.torn {
      var o :| o in s.pc && s.pc[o].Finish?;
      assert s'.pc[o].Finish?;
    }
  }

  lemma BeginKeeps(s: State, a: Action)
    requires IndexInv(s) && Begins(s, a)
    ensures Enabled(s, a) && IndexInv(Step(s, a))
  {
    var s' := Step(s, a);
    assert s'.pc[a.t].Finish?;
    forall t | t in s'.pc ensures Current(s', s'.pc[t]) { if t != a.t { assert Current(s, s.pc[t]); } }
  }

  lemma EndKeeps(s: State, a: Action)
    requires LockInv(s) && IndexInv(s) && Enabled(s, a) && Ends(s, a)
    ensures IndexInv(Step(s, a))
  {}

  lemma IndexStep(s: State, a: Action)
    requires LockInv(s) && IndexInv(s) && Enabled(s, a)
    ensures IndexInv(Step(s, a))
  {
    if Begins(s, a) { BeginKeeps(s, a); } else if Ends(s, a) { EndKeeps(s, a); } else { OtherKeeps(s, a); }
  }

  /** The answer of a lookup is the one a scan gives at this very moment, inside the call. */
  lemma FoundNow(s: State, t: nat)
    requires IndexInv(s) && t in s.pc && s.pc[t].Leave?
    ensures Answers(s.alive, s.pc[t].addr, s.pc[t].r)
  {
    assert Current(s, s.pc[t]);
    LookupIsScan(s.alive, s.pc[t].addr);
  }

  // ---- identifiers -------------------------------------------------------------------------------------

  /** `t` has put the block at `a` into the index and not yet into the record. */
  predicate Pending(s: State, t: nat, a: nat) {
    t in s.pc && (s.pc[t].Release? || s.pc[t].Log?) && s.pc[t].op.Insert? && s.pc[t].op.start == a
    && a in s.alive && s.pc[t].op.size == s.alive[a].size && s.alive[a].id == s.nextId
  }

  /** A live block is recorded under its identifier, or is the one being inserted. */
  ghost predicate Recorded(s: State, a: nat)
    requires a in s.alive
  {
    var b := s.alive[a];
    (b.id < |s.total| && s.total[b.id] == Record(a, b.id, b.size)) || exists t :: Pending(s, t, a)
  }

  predicate Logging(pc: Pc) { pc.Log? || pc.Count? }

  ghost predicate TotalInv(s: State) {
    && (forall i :: 0 <= i < |s.total| ==> s.total[i].id == i)
    && (forall t, u :: t in s.pc && u in s.pc && Inserting(s.pc[t]) && Inserting(s.pc[u]) ==> t == u)
    && (forall t :: t in s.pc && Logging(s.pc[t]) ==> s.pc[t].op.Insert?)
    && (forall t :: t in s.pc && s.pc[t].Count? ==> |s.total| == s.nextId + 1)
    && (|s.total| == s.nextId || (|s.total| == s.nextId + 1 && exists t :: t in s.pc && s.pc[t].Count?))
  }

  ghost predicate IdInv(s: State) { TotalInv(s) && forall a :: a in s.alive ==> Recorded(s, a) }

  lemma ReadFrame(s: State, t: nat)
    requires Enabled(s, Go(t)) && !IsWriter(s.pc[t])
    ensures var s' := Read(s, t);
            && s'.alive == s.alive && s'.total == s.total && s'.nextId == s.nextId
            && t in s'.pc && s'.pc == s.pc[t := s'.pc[t]] && !IsWriter(s'.pc[t])
  {}

  lemma WriteFrame(s: State, t: nat)
    requires Enabled(s, Go(t)) && IsWriter(s.pc[t]) && !Logging(s.pc[t])
    ensures var s' := Write(s, t);
            && s'.total == s.total && s'.nextId == s.nextId && t in s'.pc && s'.pc == s.pc[t := s'.pc[t]]
            && (s.pc[t].Finish? || s'.alive == s.alive) && !s'.pc[t].Count?
            && (IsWriter(s'.pc[t]) ==> s'.pc[t].op == s.pc[t].op)
            && (s'.pc[t].Log? ==> s.pc[t].op.Insert?)
            && (s.pc[t].Release? && s.pc[t].op.Insert? ==> s'.pc[t].Log?)
  {}

  /** Only `Log` and `Count` touch the record and the counter. */
  lemma QuietIds(s: State, a: Action)
    requires Enabled(s, a) && !(a.Go? && Logging(s.pc[a.t]))
    ensures var s' := Step(s, a);
            && s'.total == s.total && s'.nextId == s.nextId && a.t in s'.pc && s'.pc == s.pc[a.t := s'.pc[a.t]]
            && !s'.pc[a.t].Count? && !s.pc[a.t].Count? && !s.pc[a.t].Log?
            && (Ends(s, a) || s'.alive == s.alive)
            && (s'.pc[a.t].Log? ==> s'.pc[a.t].op.Insert?)
            && (Inserting(s'.pc[a.t]) ==> Inserting(s.pc[a.t]) || (a.Change? && a.op.Insert?))
            && (s.pc[a.t].Release? && s.pc[a.t].op.Insert? ==> s'.pc[a.t].Log? && s'.pc[a.t].op == s.pc[a.t].op)
  {
    if a.Go? { if IsWriter(s.pc[a.t]) { WriteFrame(s, a.t); } else { ReadFrame(s, a.t); } }
  }

  lemma TotalStep(s: State, a: Action)
    requires TotalInv(s) && Enabled(s, a)
    ensures TotalInv(Step(s, a))
  {
    var s' := Step(s, a);
    if a.Go? && Logging(s.pc[a.t]) {
      assert Inserting(s.pc[a.t]);
      if s.pc[a.t].Log? { assert s'.pc[a.t].Count?; }
    } else {
      QuietIds(s, a);
      if |s.total| == s.nextId + 1 {
        var o :| o in s.pc && s.pc[o].Count?;
        assert s'.pc[o].Count?;
      }
    }
  }

  lemma PendingKeeps(s: State, a: Action, t: nat, x: nat)
    requires TotalInv(s) && Enabled(s, a) && !Ends(s, a) && Pending(s, t, x) && !(a.Go? && Logging(s.pc[a.t]))
    ensures Pending(Step(s, a), t, x)
  {
    QuietIds(s, a);
  }

  lemma RecordedKeeps(s: State, a: Action, x: nat)
    requires TotalInv(s) && Enabled(s, a) && !Ends(s, a) && !(a.Go? && Logging(s.pc[a.t])) && x in s.alive
    requires Recorded(s, x)
    ensures Step(s, a).alive == s.alive && Recorded(Step(s, a), x)
  {
    QuietIds(s, a);
    if t :| Pending(s, t, x) { PendingKeeps(s, a, t, x); }
  }

  lemma RecordedLogs(s: State, a: Action, x: nat)
    requires TotalInv(s) && Enabled(s, a) && a.Go? && Logging(s.pc[a.t]) && x in s.alive && Recorded(s, x)
    ensures Step(s, a).alive == s.alive && Recorded(Step(s, a), x)
  {
    assert Inserting(s.pc[a.t]);
    if t :| Pending(s, t, x) {
      assert Inserting(s.pc[t]);
      PendingUnlogged(s, t, x);
    }
  }

  lemma RecordedEnds(s: State, a: Action, x: nat)
    requires LockInv(s) && IdInv(s) && Enabled(s, a) && Ends(s, a) && x in Step(s, a).alive
    ensures Recorded(Step(s, a), x)
  {
    var s' := Step(s, a);
    var op := s.pc[a.t].op;
    if op.Insert? && x == op.start {
      assert Pending(s', a.t, x);
    } else if exists t :: Pending(s, t, x) {
      var t :| Pending(s, t, x);
      assert Recorded(s, x) && t != a.t;
      assert Pending(s', t, x);
    } else {
      assert Recorded(s, x);
    }
  }

  lemma IdStep(s: State, a: Action)
    requires LockInv(s) && IdInv(s) && Enabled(s, a)
    ensures IdInv(Step(s, a))
  {
    TotalStep(s, a);
    var s' := Step(s, a);
    forall x | x in s'.alive ensures Recorded(s', x) {
      if Ends(s, a) { RecordedEnds(s, a, x); }
      else if a.Go? && Logging(s.pc[a.t]) { RecordedLogs(s, a, x); }
      else { RecordedKeeps(s, a, x); }
    }
  }

  /** Live blocks have different identifiers, and every identifier given out has exactly one record. */
  lemma IdsUnique(s: State, a: nat, b: nat)
    requires IdInv(s) && a in s.alive && b in s.alive && s.alive[a].id == s.alive[b].id
    ensures a == b
  {
    assert Recorded(s, a) && Recorded(s, b);
    if exists t :: Pending(s, t, a) {
      var t :| Pending(s, t, a);
      PendingUnlogged(s, t, a);
      var u :| Pending(s, u, b);
      assert Inserting(s.pc[t]) && Inserting(s.pc[u]);
    } else if exists t :: Pending(s, t, b) {
      var t :| Pending(s, t, b);
      PendingUnlogged(s, t, b);
    }
  }

  lemma PendingUnlogged(s: State, t: nat, a: nat)
    requires TotalInv(s) && Pending(s, t, a)
    ensures |s.total| == s.nextId
  {}

  // ---- every run -----------------------------------------------------------------------------------------

  ghost predicate Inv(s: State) { LockInv(s) && IndexInv(s) && IdInv(s) }

  lemma InvStep(s: State, a: Action)
    requires Inv(s) && Enabled(s, a)
    ensures Inv(Step(s, a))
  {
    if Claimed(s.pc[a.t]) { assert s.writing; }
    StepIsLockStep(s, a);
    LockKeeps(s, Step(s, a), a.t);
    IndexStep(s, a);
    IdStep(s, a);
  }

  ghost predicate Legal(s: State, run: seq<Action>)
    decreases |run|
  {
    run == [] || (Enabled(s, run[0]) && Legal(Step(s, run[0]), run[1..]))
  }

  ghost function After(s: State, run: seq<Action>): State
    requires Legal(s, run)
    decreases |run|
  {
    if run == [] then s else After(Step(s, run[0]), run[1..])
  }

  lemma {:induction false} RunInv(s: State, run: seq<Action>)
    requires Inv(s) && Legal(s, run)
    ensures Inv(After(s, run))
    decreases |run|
  {
    if run != [] {
      InvStep(s, run[0]);
      RunInv(Step(s, run[0]), run[1..]);
    }
  }

  /** Everything above holds in every reachable state. */
  lemma Reachable(s: State, run: seq<Action>)
    requires Initial(s) && Legal(s, run)
    ensures Inv(After(s, run))
  {
    assert CountedSet(s.pc) == {};
    RunInv(s, run);
  }

  /** The lock: one writer, and no reader beside it, however readers come and retreat. */
  lemma Excluded(s: State, run: seq<Action>, t: nat, u: nat)
    requires Initial(s) && Legal(s, run)
    requires var r := After(s, run); t in r.pc && u in r.pc && t != u && Writing(r.pc[t])
    ensures var r := After(s, run); !Writing(r.pc[u]) && !Reading(r.pc[u]) && r.writing
  {
    Reachable(s, run);
    var r := After(s, run);
    assert Claimed(r.pc[t]);
  }
}
