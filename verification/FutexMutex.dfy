/** The futex mutex of the allocator: `mutex_lock`, `mutex_unlock` and `mutex_trylock`
    (others/tmi/src/ll_alloc.c), as atomic steps of any number of threads. */
module FutexMutex {
  const LOCK_SPINS: nat := 100
  const UNLOCK_SPINS: nat := 200

  datatype Pc =
    | Out
    | Spin(left: nat)       // lock: exchanges of the locked byte still to try
    | Grab                  // lock: about to exchange the whole word with 257
    | Sleepy                // lock: about to ask the kernel to wait while the word is 257
    | Asleep
    | In
    | Look                  // unlock: about to compare the word with 1
    | Cas                   // unlock: about to compare and swap 1 by 0
    | Drop                  // unlock: about to clear the locked byte
    | Hope(left: nat)       // unlock: hoping that somebody takes the lock
    | Clear                 // unlock: about to clear the contended byte
    | Wake                  // unlock: about to wake one sleeper
    | TryLook               // trylock: about to read the locked byte
    | TryTake               // trylock: about to exchange the locked byte

  /** The word is 1 when only `locked` is set and 257 when both are. */
  datatype State = State(pc: map<nat, Pc>, locked: bool, contended: bool)

  datatype Action =
    | Lock(t: nat) | TryLock(t: nat) | Unlock(t: nat)
    | Go(t: nat)                    // the next step of the call the thread is in
    | WakeOne(t: nat, u: nat)       // the kernel picks the sleeper `u`
    | WakeNone(t: nat)
    | Spurious(t: nat)              // the wait returns without a wake-up

  predicate At(s: State, t: nat, pc: Pc) { t in s.pc && s.pc[t] == pc }

  predicate Enabled(s: State, a: Action) {
    match a
    case Lock(t) => At(s, t, Out)
    case TryLock(t) => At(s, t, Out)
    case Unlock(t) => At(s, t, In)
    case Go(t) => t in s.pc && s.pc[t] !in {Out, In, Asleep, Wake}
      && (s.pc[t].Spin? || s.pc[t].Hope? ==> s.pc[t].left > 0)
    case WakeOne(t, u) => At(s, t, Wake) && At(s, u, Asleep)
    case WakeNone(t) => At(s, t, Wake) && forall u :: u in s.pc ==> !s.pc[u].Asleep?
    case Spurious(t) => At(s, t, Asleep)
  }

  function Move(s: State, t: nat, pc: Pc): State { s.(pc := s.pc[t := pc]) }

  function Go1(s: State, t: nat): State
    requires Enabled(s, Go(t))
  {
    match s.pc[t]
    case Spin(n) =>
      if !s.locked then Move(s, t, In).(locked := true) else Move(s, t, if n == 1 then Grab else Spin(n - 1))
    case Grab => Move(s, t, if s.locked then Sleepy else In).(locked := true, contended := true)
    case Sleepy => Move(s, t, if s.locked && s.contended then Asleep else Grab)
    case Look => Move(s, t, if s.locked && !s.contended then Cas else Drop)
    case Cas => if s.locked && !s.contended then Move(s, t, Out).(locked := false) else Move(s, t, Drop)
    case Drop => Move(s, t, Hope(UNLOCK_SPINS)).(locked := false)
    case Hope(n) => Move(s, t, if s.locked then Out else if n == 1 then Clear else Hope(n - 1))
    case Clear => Move(s, t, Wake).(contended := false)
    case TryLook => Move(s, t, if s.locked then Out else TryTake)
    case TryTake => Move(s, t, if s.locked then Out else In).(locked := true)
  }

  function Step(s: State, a: Action): State
    requires Enabled(s, a)
  {
    match a
    case Lock(t) => Move(s, t, Spin(LOCK_SPINS))
    case TryLock(t) => Move(s, t, TryLook)
    case Unlock(t) => Move(s, t, Look)
    case Go(t) => Go1(s, t)
    case WakeOne(t, u) => Move(Move(s, u, Grab), t, Out)
    case WakeNone(t) => Move(s, t, Out)
    case Spurious(t) => Move(s, t, Grab)
  }

  // ---- the invariant --------------------------------------------------------------------------------

  /** From taking the lock until the locked byte is cleared. */
  predicate Owns(pc: Pc) { pc.In? || pc.Look? || pc.Cas? || pc.Drop? }

  /** About to wake a sleeper, or about to compete for the lock. */
  predicate Rouses(pc: Pc) { pc.Wake? || pc.Grab? }

  /** Will take the lock, see it taken, or wake a sleeper. */
  predicate Helps(pc: Pc) { pc.Hope? || pc.Clear? || Rouses(pc) }

  ghost predicate SomeAsleep(s: State) { exists t :: t in s.pc && s.pc[t].Asleep? }
  ghost predicate SomeOwner(s: State) { exists t :: t in s.pc && Owns(s.pc[t]) }
  ghost predicate SomeHelper(s: State) { exists t :: t in s.pc && Helps(s.pc[t]) }
  ghost predicate SomeRouser(s: State) { exists t :: t in s.pc && Rouses(s.pc[t]) }

  ghost predicate Exclusive(s: State) {
    && (forall t, u :: t in s.pc && u in s.pc && Owns(s.pc[t]) && Owns(s.pc[u]) ==> t == u)
    && (s.locked <==> SomeOwner(s))
  }

  /** No wake-up is lost. */
  ghost predicate Attended(s: State) {
    SomeAsleep(s) ==> (s.locked || SomeHelper(s)) && (s.contended || SomeRouser(s))
  }

  /** The loops count down from their bounds. */
  predicate Bounded(pc: Pc) { pc.Spin? || pc.Hope? ==> 0 < pc.left <= UNLOCK_SPINS }

  ghost predicate Inv(s: State) { Exclusive(s) && Attended(s) && forall t :: t in s.pc ==> Bounded(s.pc[t]) }

  /** Only the acting thread can become or cease to be the owner. */
  lemma OthersKeep(s: State, a: Action, v: nat)
    requires Enabled(s, a) && v != a.t
    ensures v in Step(s, a).pc <==> v in s.pc
    ensures v in s.pc ==> Owns(Step(s, a).pc[v]) == Owns(s.pc[v])
  {}

  /** The lock is taken only when it is free, and freed only by its owner. */
  lemma ActorOwns(s: State, a: Action)
    requires Enabled(s, a) && (Owns(s.pc[a.t]) ==> s.locked)
    ensures a.t in Step(s, a).pc
    ensures Owns(Step(s, a).pc[a.t]) ==> Step(s, a).locked && (Owns(s.pc[a.t]) || !s.locked)
    ensures !Owns(Step(s, a).pc[a.t]) ==> Step(s, a).locked == (s.locked && !Owns(s.pc[a.t]))
  {}

  lemma UniqueStep(s: State, a: Action, t: nat, u: nat)
    requires Exclusive(s) && Enabled(s, a)
    requires t in Step(s, a).pc && u in Step(s, a).pc && Owns(Step(s, a).pc[t]) && Owns(Step(s, a).pc[u])
    ensures t == u
  {
    ActorOwns(s, a);
    if t != a.t { OthersKeep(s, a, t); assert SomeOwner(s); }
    if u != a.t { OthersKeep(s, a, u); assert SomeOwner(s); }
  }

  lemma OwnerStep(s: State, a: Action)
    requires Exclusive(s) && Enabled(s, a)
    ensures Step(s, a).locked <==> SomeOwner(Step(s, a))
  {
    var s' := Step(s, a);
    ActorOwns(s, a);
    if s.locked {
      var o :| o in s.pc && Owns(s.pc[o]);
      if o != a.t { OthersKeep(s, a, o); }
    }
    if SomeOwner(s') {
      var o :| o in s'.pc && Owns(s'.pc[o]);
      if o != a.t { OthersKeep(s, a, o); assert SomeOwner(s); }
    }
  }

  lemma ExclusiveStep(s: State, a: Action)
    requires Exclusive(s) && Enabled(s, a)
    ensures Exclusive(Step(s, a))
  {
    var s' := Step(s, a);
    forall t, u | t in s'.pc && u in s'.pc && Owns(s'.pc[t]) && Owns(s'.pc[u]) ensures t == u {
      UniqueStep(s, a, t, u);
    }
    OwnerStep(s, a);
  }

  /** Whoever attends to the sleepers goes on doing so, or hands over. */
  lemma HelpersStep(s: State, a: Action)
    requires Inv(s) && Enabled(s, a) && SomeAsleep(s)
    ensures Step(s, a).locked || SomeHelper(Step(s, a))
  {
    var s' := Step(s, a);
    if a.WakeOne? { assert a.u in s'.pc && Helps(s'.pc[a.u]); }
    else if Helps(s'.pc[a.t]) { assert a.t in s'.pc; }
    else if SomeHelper(s) {
      var h :| h in s.pc && Helps(s.pc[h]);
      if h != a.t { assert s'.pc[h] == s.pc[h]; } else { assert s'.locked; }
    } else {
      RousersStep(s, a);
    }
  }

  lemma RousersStep(s: State, a: Action)
    requires Inv(s) && Enabled(s, a) && SomeAsleep(s)
    ensures Step(s, a).contended || SomeRouser(Step(s, a))
    ensures s.locked && !Step(s, a).locked && !Helps(Step(s, a).pc[a.t]) ==> SomeHelper(Step(s, a))
  {
    var s' := Step(s, a);
    if a.WakeOne? { assert a.u in s'.pc && Rouses(s'.pc[a.u]); }
    else if Rouses(s'.pc[a.t]) { assert a.t in s'.pc; }
    else if SomeRouser(s) {
      var h :| h in s.pc && Rouses(s.pc[h]);
      if h != a.t { assert s'.pc[h] == s.pc[h]; }
    }
  }

  lemma AttendedStep(s: State, a: Action)
    requires Inv(s) && Enabled(s, a)
    ensures Attended(Step(s, a))
  {
    var s' := Step(s, a);
    if SomeAsleep(s') {
      if SomeAsleep(s) {
        HelpersStep(s, a);
        RousersStep(s, a);
      } else {
        var t :| t in s'.pc && s'.pc[t].Asleep?;
        assert t == a.t;
      }
    }
  }

  lemma InvStep(s: State, a: Action)
    requires Inv(s) && Enabled(s, a)
    ensures Inv(Step(s, a))
  {
    ExclusiveStep(s, a);
    AttendedStep(s, a);
  }

  // ---- every run -------------------------------------------------------------------------------------

  ghost predicate Legal(s: State, run: seq<Action>)
    decreases |run|
  {
    run == [] || (Enabled(s, run[0]) && Legal(Step(s, run[0]), run[1..]))
  }

  ghost function After(s: State, run: seq<Action>): State
    requires Legal(s, run)
    decreases |run|
  {
    if run == [] then s else After(Step(s, run[0]), run[1..])
  }

  lemma {:induction false} RunInv(s: State, run: seq<Action>)
    requires Inv(s) && Legal(s, run)
    ensures Inv(After(s, run))
    decreases |run|
  {
    if run != [] {
      InvStep(s, run[0]);
      RunInv(Step(s, run[0]), run[1..]);
    }
  }

  /** `mutex_init`: nobody is inside a call. */
  predicate Initial(s: State) { !s.locked && !s.contended && forall t :: t in s.pc ==> s.pc[t] == Out }

  /** In every reachable state at most one thread is inside, and sleepers are attended to. */
  lemma Safe(s: State, run: seq<Action>)
    requires Initial(s) && Legal(s, run)
    ensures var r := After(s, run); Exclusive(r) && Attended(r)
  {
    RunInv(s, run);
  }

  // ---- a free lock does not stay free while somebody sleeps ----------------------------------------------

  /** A thread in `Grab` gets a free lock with its next step. */
  lemma GrabTakes(s: State, t: nat)
    requires At(s, t, Grab) && !s.locked
    ensures Legal(s, [Go(t)]) && At(After(s, [Go(t)]), t, In)
  {
    var run := [Go(t)];
    assert run[1..] == [];
  }

  lemma Prepend(s: State, a: Action, run: seq<Action>)
    requires Enabled(s, a) && Legal(Step(s, a), run)
    ensures Legal(s, [a] + run) && After(s, [a] + run) == After(Step(s, a), run)
  {
    assert ([a] + run)[1..] == run;
  }

  /** Steps of the helper alone, and of the sleeper it wakes, put a thread inside. */
  lemma {:induction false} HelperSucceeds(s: State, h: nat, sleeper: nat) returns (run: seq<Action>, t: nat)
    requires h in s.pc && Helps(s.pc[h]) && At(s, sleeper, Asleep) && !s.locked && Bounded(s.pc[h])
    ensures Legal(s, run) && At(After(s, run), t, In)
    ensures forall a :: a in run ==> a.t == h || a.t == sleeper
    decreases if s.pc[h].Hope? then s.pc[h].left + 2 else if s.pc[h].Clear? then 2 else if s.pc[h].Wake? then 1 else 0
  {
    if s.pc[h].Grab? {
      run, t := [Go(h)], h;
      GrabTakes(s, h);
    } else {
      var a := if s.pc[h].Wake? then WakeOne(h, sleeper) else Go(h);
      if s.pc[h].Wake? {
        run, t := [Go(sleeper)], sleeper;
        GrabTakes(Step(s, a), sleeper);
      } else {
        run, t := HelperSucceeds(Step(s, a), h, sleeper);
      }
      Prepend(s, a, run);
      run := [a] + run;
    }
  }

  /** From every reachable state with a sleeper and a free lock, at most two threads need to take steps
      until somebody is inside. */
  lemma NoSleepForever(s: State, sleeper: nat) returns (run: seq<Action>, t: nat, h: nat)
    requires Inv(s) && At(s, sleeper, Asleep) && !s.locked
    ensures Legal(s, run) && At(After(s, run), t, In)
    ensures forall a :: a in run ==> a.t == h || a.t == sleeper
  {
    assert SomeAsleep(s);
    h :| h in s.pc && Helps(s.pc[h]);
    run, t := HelperSucceeds(s, h, sleeper);
  }
}
