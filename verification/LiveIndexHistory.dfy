/** The index of live blocks over whole runs: identifiers are never reused, and the value a lookup returns
    is right at some instant of the call. */
module LiveIndexHistory {
  import opened Options
  import opened LiveIndex
  import opened LiveIndexRuns

  // ---- the record only grows ---------------------------------------------------------------------------

  lemma GrowStep(s: State, a: Action)
    requires Enabled(s, a)
    ensures s.total <= Step(s, a).total && s.nextId <= Step(s, a).nextId
  {
    if !(a.Go? && Logging(s.pc[a.t])) { QuietIds(s, a); }
  }

  lemma {:induction false} TotalGrows(s: State, run: seq<Action>)
    requires Legal(s, run)
    ensures s.total <= After(s, run).total && s.nextId <= After(s, run).nextId
    decreases |run|
  {
    if run != [] {
      GrowStep(s, run[0]);
      TotalGrows(Step(s, run[0]), run[1..]);
    }
  }

  // ---- a block that has its identifier keeps it --------------------------------------------------------

  /** `t` has put the block into the index and is on its way to record it; it may be erased meanwhile. */
  predicate Claims(s: State, t: nat, a: nat, size: nat) {
    t in s.pc && (s.pc[t].Release? || s.pc[t].Log?) && s.pc[t].op == Insert(a, size)
  }

  /** Identifier `id` belongs to the block at `a` of the given size, now and for ever. */
  ghost predicate Assigned(s: State, t: nat, id: nat, a: nat, size: nat) {
    || (id < |s.total| && s.total[id] == Record(a, id, size))
    || (id == s.nextId && Claims(s, t, a, size))
  }

  lemma ClaimsStep(s: State, x: Action, t: nat, a: nat, size: nat)
    requires TotalInv(s) && Enabled(s, x) && Claims(s, t, a, size)
    ensures Assigned(Step(s, x), t, s.nextId, a, size)
  {
    assert Inserting(s.pc[t]);
    if x.Go? && Logging(s.pc[x.t]) {
      assert Inserting(s.pc[x.t]);
      ClaimsUnlogged(s, t, a, size);
    } else {
      QuietIds(s, x);
    }
  }

  lemma ClaimsUnlogged(s: State, t: nat, a: nat, size: nat)
    requires TotalInv(s) && Claims(s, t, a, size)
    ensures |s.total| == s.nextId
  {
    assert Inserting(s.pc[t]);
    forall u | u in s.pc ensures !s.pc[u].Count? { assert Inserting(s.pc[u]) ==> u == t; }
  }

  lemma AssignedStep(s: State, x: Action, t: nat, id: nat, a: nat, size: nat)
    requires TotalInv(s) && Enabled(s, x) && Assigned(s, t, id, a, size)
    ensures Assigned(Step(s, x), t, id, a, size)
  {
    if id < |s.total| { GrowStep(s, x); } else { ClaimsStep(s, x, t, a, size); }
  }

  lemma {:induction false} AssignedForever(s: State, run: seq<Action>, t: nat, id: nat, a: nat, size: nat)
    requires Inv(s) && Legal(s, run) && Assigned(s, t, id, a, size)
    ensures Assigned(After(s, run), t, id, a, size)
    decreases |run|
  {
    if run != [] {
      AssignedStep(s, run[0], t, id, a, size);
      InvStep(s, run[0]);
      AssignedForever(Step(s, run[0]), run[1..], t, id, a, size);
    }
  }

  lemma LiveAssigned(s: State, a: nat) returns (t: nat)
    requires IdInv(s) && a in s.alive
    ensures Assigned(s, t, s.alive[a].id, a, s.alive[a].size)
  {
    assert Recorded(s, a);
    t := 0;
    if u :| Pending(s, u, a) { t := u; }
  }

  /** Two blocks to which one identifier is assigned in one state are the same. */
  lemma AssignedOnce(s: State, t: nat, u: nat, id: nat, a: nat, size: nat, b: nat, size': nat)
    requires TotalInv(s) && Assigned(s, t, id, a, size) && Assigned(s, u, id, b, size')
    ensures a == b && size == size'
  {
    if Claims(s, t, a, size) && id == s.nextId { ClaimsUnlogged(s, t, a, size); assert Inserting(s.pc[t]); }
    if Claims(s, u, b, size') && id == s.nextId { ClaimsUnlogged(s, u, b, size'); assert Inserting(s.pc[u]); }
  }

  /** Identifiers are never reused: one that is seen live in two states of a run names the same block. */
  lemma NeverReused(s: State, run: seq<Action>, a: nat, b: nat)
    requires Inv(s) && Legal(s, run) && a in s.alive && b in After(s, run).alive
    requires s.alive[a].id == After(s, run).alive[b].id
    ensures a == b && s.alive[a] == After(s, run).alive[b]
  {
    var s' := After(s, run);
    var id := s.alive[a].id;
    var t := LiveAssigned(s, a);
    AssignedForever(s, run, t, id, a, s.alive[a].size);
    RunInv(s, run);
    var u := LiveAssigned(s', b);
    AssignedOnce(s', t, u, id, a, s.alive[a].size, b, s'.alive[b].size);
  }

  // ---- the value a lookup returns ----------------------------------------------------------------------

  /** Inside a lookup of `addr`, the result not yet taken outside. */
  predicate Looking(pc: Pc, addr: nat) {
    (pc.Peek? || pc.Enter? || pc.Recheck? || pc.Retreat? || pc.Upper? || pc.Entry? || pc.Leave?) && pc.addr == addr
  }

  /** Thread `t` starts no further lookup. */
  predicate NoFind(run: seq<Action>, t: nat) { forall a :: a in run ==> !(a.Find? && a.t == t) }

  lemma OthersStay(s: State, x: Action, t: nat)
    requires Enabled(s, x) && t in s.pc && x.t != t
    ensures t in Step(s, x).pc && Step(s, x).pc[t] == s.pc[t]
  {
    if !(x.Go? && Logging(s.pc[x.t])) { QuietIds(s, x); }
  }

  lemma ReadLooking(s: State, t: nat, addr: nat)
    requires Enabled(s, Go(t)) && Looking(s.pc[t], addr)
    ensures t in Read(s, t).pc
    ensures Looking(Read(s, t).pc[t], addr) || (s.pc[t].Leave? && Read(s, t).pc[t] == Answer(addr, s.pc[t].r))
  {}

  lemma LookingStep(s: State, x: Action, t: nat, addr: nat)
    requires Enabled(s, x) && t in s.pc && Looking(s.pc[t], addr)
    ensures t in Step(s, x).pc
    ensures Looking(Step(s, x).pc[t], addr) || (s.pc[t].Leave? && Step(s, x).pc[t] == Answer(addr, s.pc[t].r))
  {
    if x.t != t { OthersStay(s, x, t); } else { ReadLooking(s, t, addr); }
  }

  /** Outside lookups, with the old result or without any. */
  predicate Past(pc: Pc, addr: nat, r: Option<Hit>) { pc == Answer(addr, r) || pc.Idle? || IsWriter(pc) }

  lemma WritePast(s: State, t: nat)
    requires Enabled(s, Go(t)) && IsWriter(s.pc[t])
    ensures t in Write(s, t).pc && (Write(s, t).pc[t].Idle? || IsWriter(Write(s, t).pc[t]))
  {}

  lemma PastStep(s: State, x: Action, t: nat, addr: nat, r: Option<Hit>)
    requires Enabled(s, x) && t in s.pc && Past(s.pc[t], addr, r) && !(x.Find? && x.t == t)
    ensures t in Step(s, x).pc && Past(Step(s, x).pc[t], addr, r)
  {
    if x.t != t { OthersStay(s, x, t); } else if IsWriter(s.pc[t]) { WritePast(s, t); }
  }

  lemma {:induction false} PastStays(s: State, run: seq<Action>, t: nat, addr: nat, r: Option<Hit>)
    requires Legal(s, run) && NoFind(run, t) && t in s.pc && Past(s.pc[t], addr, r)
    ensures t in After(s, run).pc && Past(After(s, run).pc[t], addr, r)
    decreases |run|
  {
    if run != [] {
      assert run[0] in run;
      PastStep(s, run[0], t, addr, r);
      PastStays(Step(s, run[0]), run[1..], t, addr, r);
    }
  }

  lemma PrefixAfter(s: State, run: seq<Action>, n: nat)
    requires run != [] && n < |run| && Legal(s, run) && Legal(Step(s, run[0]), run[1..][..n])
    ensures Legal(s, run[..n + 1]) && After(s, run[..n + 1]) == After(Step(s, run[0]), run[1..][..n])
  {
    assert run[..n + 1][1..] == run[1..][..n];
  }

  /** The step that takes the result outside. */
  lemma LookupEnds(s: State, run: seq<Action>, t: nat, addr: nat, r: Option<Hit>)
    requires Inv(s) && Legal(s, run) && run != [] && NoFind(run[1..], t) && t in s.pc && s.pc[t].Leave?
    requires s.pc[t].addr == addr
    requires var s1 := Step(s, run[0]); t in s1.pc && s1.pc[t] == Answer(addr, s.pc[t].r)
    requires t in After(s, run).pc && After(s, run).pc[t] == Answer(addr, r)
    ensures s.pc[t] == Leave(addr, r) && Answers(s.alive, addr, r)
  {
    PastStays(Step(s, run[0]), run[1..], t, addr, s.pc[t].r);
    FoundNow(s, t);
  }

  lemma NoFindTail(run: seq<Action>, t: nat)
    requires run != [] && NoFind(run, t)
    ensures NoFind(run[1..], t)
  {}

  /** `s` is the state of the call that holds the answer. */
  ghost predicate Witness(s: State, t: nat, addr: nat, r: Option<Hit>) {
    t in s.pc && s.pc[t] == Leave(addr, r) && Answers(s.alive, addr, r)
  }

  lemma LookupHere(s: State, run: seq<Action>, t: nat, addr: nat, r: Option<Hit>) returns (n: nat)
    requires Inv(s) && Legal(s, run) && run != [] && NoFind(run[1..], t) && t in s.pc && s.pc[t].Leave?
    requires s.pc[t].addr == addr
    requires var s1 := Step(s, run[0]); t in s1.pc && s1.pc[t] == Answer(addr, s.pc[t].r)
    requires t in After(s, run).pc && After(s, run).pc[t] == Answer(addr, r)
    ensures n < |run| && Legal(s, run[..n]) && Witness(After(s, run[..n]), t, addr, r)
  {
    LookupEnds(s, run, t, addr, r);
    n := 0;
    assert run[..0] == [];
  }

  /** A witness in the rest of the run is one in the run. */
  lemma LookupLater(s: State, run: seq<Action>, t: nat, addr: nat, r: Option<Hit>, m: nat) returns (n: nat)
    requires Legal(s, run) && run != [] && m < |run| - 1 && Legal(Step(s, run[0]), run[1..][..m])
    requires Witness(After(Step(s, run[0]), run[1..][..m]), t, addr, r)
    ensures n < |run| && Legal(s, run[..n]) && Witness(After(s, run[..n]), t, addr, r)
  {
    PrefixAfter(s, run, m);
    n := m + 1;
  }

  /** What the first step of a lookup's run leaves to the rest. */
  lemma LookupSteps(s: State, run: seq<Action>, t: nat, addr: nat)
    requires Inv(s) && Legal(s, run) && run != [] && NoFind(run, t) && t in s.pc && Looking(s.pc[t], addr)
    ensures Inv(Step(s, run[0])) && Legal(Step(s, run[0]), run[1..]) && NoFind(run[1..], t)
    ensures After(s, run) == After(Step(s, run[0]), run[1..]) && t in Step(s, run[0]).pc
    ensures Looking(Step(s, run[0]).pc[t], addr)
            || (s.pc[t].Leave? && s.pc[t].addr == addr && Step(s, run[0]).pc[t] == Answer(addr, s.pc[t].r))
  {
    LookingStep(s, run[0], t, addr);
    NoFindTail(run, t);
    InvStep(s, run[0]);
  }

  lemma {:induction false} LookupInside(s: State, run: seq<Action>, t: nat, addr: nat, r: Option<Hit>) returns (n: nat)
    requires Inv(s) && Legal(s, run) && NoFind(run, t) && t in s.pc && Looking(s.pc[t], addr)
    requires t in After(s, run).pc && After(s, run).pc[t] == Answer(addr, r)
    ensures n < |run| && Legal(s, run[..n]) && Witness(After(s, run[..n]), t, addr, r)
    decreases |run|
  {
    LookupSteps(s, run, t, addr);
    if Looking(Step(s, run[0]).pc[t], addr) {
      n := LookupInside(Step(s, run[0]), run[1..], t, addr, r);
      n := LookupLater(s, run, t, addr, r, n);
    } else {
      n := LookupHere(s, run, t, addr, r);
    }
  }

  /** A lookup that began with `Find(t, addr)` and returns `r` was, at some instant in between, in a state
      whose live blocks give exactly that answer when scanned. */
  lemma LookupAnswers(s: State, run: seq<Action>, t: nat, addr: nat, r: Option<Hit>) returns (n: nat)
    requires Inv(s) && Legal(s, run) && run != [] && run[0] == Find(t, addr) && NoFind(run[1..], t)
    requires t in After(s, run).pc && After(s, run).pc[t] == Answer(addr, r)
    ensures 0 < n < |run| && Legal(s, run[..n]) && Answers(After(s, run[..n]).alive, addr, r)
  {
    InvStep(s, run[0]);
    n := LookupInside(Step(s, run[0]), run[1..], t, addr, r);
    PrefixAfter(s, run, n);
    n := n + 1;
  }
}
