/** Which latches keep their condition, and why the unrolled loop still runs the right number of
    iterations (RedirectPtr/CustomUnrollLoop.cpp). */
module UnrollTrips {
  import opened Options
  import opened LoopIR
  import opened Unroll
  import opened UnrollCorrect
  import opened Divisors

  /** The arguments of `CustomUnrollLoop` that decide about latches; a trip count of 0 is unknown.
      `remainder` says whether a remainder loop could be generated in front. */
  datatype Request = Request(count: nat, tripCount: nat, tripMultiple: nat, force: bool, allowRuntime: bool,
                             remainder: bool, preserveCondBr: bool, preserveOnlyFirst: bool)

  datatype Plan = Plan(count: nat, complete: bool, runtime: bool, breakout: nat, multiple: nat)

  /** What the code asserts of its arguments. */
  predicate Sensible(q: Request) {
    (q.tripCount > 0 ==> q.count > 0) && q.tripMultiple > 0 && (q.tripCount == 0 || q.tripCount % q.tripMultiple == 0)
  }

  /** `None` leaves the loop as it is. */
  function Decide(q: Request): (r: Option<Plan>)
    requires Sensible(q)
    ensures r.Some? ==> 0 < r.value.count <= q.count && (q.tripCount != 0 ==> r.value.count <= q.tripCount)
    ensures r.Some? ==> (r.value.complete <==> q.tripCount != 0 && q.count >= q.tripCount)
    ensures r.Some? ==>
              (r.value.runtime <==>
               q.tripCount == 0 && q.allowRuntime && (q.tripMultiple % q.count == 0 || q.remainder))
    ensures r.None? <==>
              && q.tripCount == 0
              && (q.count < 2 || (q.allowRuntime && !q.force && !q.remainder && q.tripMultiple % q.count != 0))
    ensures r.Some? && !r.value.complete && q.tripCount != 0 ==> r.value.breakout == q.tripCount % r.value.count
  {
    var count := if q.tripCount != 0 && q.count > q.tripCount then q.tripCount else q.count;
    if q.tripCount == 0 && count < 2 then None
    else
      var wanted := q.tripCount == 0 && q.allowRuntime;
      var lacking := wanted && q.tripMultiple % count != 0 && !q.remainder;
      if lacking && !q.force then None
      else if q.tripCount != 0 then Some(Plan(count, count == q.tripCount, false, q.tripCount % count, 0))
      else Some(Plan(count, false, wanted && !lacking, Gcd(count, q.tripMultiple), Gcd(count, q.tripMultiple)))
  }

  /** Without a known trip count, latches are kept at the multiples of the greatest common divisor of the unroll count
      and the trip multiple. */
  lemma UnknownCount(q: Request)
    requires Sensible(q) && Decide(q).Some? && q.tripCount == 0
    ensures var p := Decide(q).value;
            && p.count == q.count && p.breakout == p.multiple > 0
            && Divides(p.multiple, q.count) && Divides(p.multiple, q.tripMultiple)
            && forall d :: d > 0 && Divides(d, q.count) && Divides(d, q.tripMultiple) ==> Divides(d, p.multiple)
  {
    GcdDivides(q.count, q.tripMultiple);
    forall d | d > 0 && Divides(d, q.count) && Divides(d, q.tripMultiple)
      ensures Divides(d, Gcd(q.count, q.tripMultiple))
    {
      GcdGreatest(d, q.count, q.tripMultiple);
    }
  }

  /** The copy after latch `i` begins the round in which `j` iterations are done, modulo the count. */
  function LatchOf(q: Request, p: Plan, i: nat): Latch
    requires p.count > 0
  {
    var j := (i + 1) % p.count;
    if p.complete then
      if q.preserveCondBr && j != 0 && !(q.preserveOnlyFirst && i != 0) then Conditional
      else if j == 0 then Leave else Always
    else if KeptAt(p, j) then Conditional else Always
  }

  predicate KeptAt(p: Plan, j: nat) {
    !(p.runtime && j != 0) && !(j != p.breakout && (p.multiple == 0 || j % p.multiple != 0))
  }

  ghost predicate Wired(q: Request, p: Plan, latches: seq<Latch>) {
    p.count > 0 && |latches| == p.count && forall i :: 0 <= i < p.count ==> latches[i] == LatchOf(q, p, i)
  }

  method Wire(q: Request, p: Plan) returns (latches: seq<Latch>)
    requires p.count > 0 && !(p.complete && p.runtime)
    ensures Wired(q, p, latches)
  {
    latches := [];
    for i := 0 to p.count
      invariant |latches| == i && forall c :: 0 <= c < i ==> latches[c] == LatchOf(q, p, c)
    {
      var j := (i + 1) % p.count;
      var needConditional, leave := true, false;
      if p.runtime && j != 0 { needConditional := false; }
      if p.complete {
        leave := j == 0;
        needConditional := q.preserveCondBr && j != 0 && !(q.preserveOnlyFirst && i != 0);
      } else if j != p.breakout && (p.multiple == 0 || j % p.multiple != 0) {
        needConditional := false;
      }
      latches := latches + [if needConditional then Conditional else if leave then Leave else Always];
    }
  }

  // ---- which copy is at the latch -------------------------------------------------------------------------

  lemma {:induction false} TurnMod(count: nat, k: nat)
    requires count > 0 && k > 0
    ensures Turn(count, k) == (k - 1) % count
    decreases k
  {
    if k > 1 {
      TurnMod(count, k - 1);
      ModSucc(k - 2, count);
    } else {
      ModIs(0, count, 0, 0);
    }
  }

  lemma LatchAfter(p: Plan, k: nat)
    requires p.count > 0 && k > 0
    ensures (Turn(p.count, k) + 1) % p.count == k % p.count
  {
    TurnMod(p.count, k);
    ModSucc(k - 1, p.count);
    ModSucc(Turn(p.count, k), p.count);
    ModIs(Turn(p.count, k), p.count, 0, Turn(p.count, k));
  }

  // ---- the number of iterations --------------------------------------------------------------------------

  /** When the unrolled loop makes exactly the `n` iterations of the original: decided by the plan alone. */
  predicate Exact(q: Request, p: Plan, n: nat)
    requires p.count > 0
  {
    if p.complete then n == p.count || (n < p.count && q.preserveCondBr && !(q.preserveOnlyFirst && n != 1))
    else KeptAt(p, n % p.count)
  }

  /** Before the original loop would be left, a partly unrolled one is not left either. */
  lemma PartialLeaves<M>(l: Loop, u: Program, q: Request, p: Plan, sem: Sem<M>, outer: Outer, mem: M, k: nat)
    requires InSsa(l) && !p.complete && IsUnrolled(l, p.count, false, u) && Wired(q, p, u.latches) && k > 0
    ensures LeavesAt(u, sem, outer, mem, k) <==> LeavesAt(Original(l), sem, outer, mem, k) && KeptAt(p, k % p.count)
  {
    SameCondition(l, u, p.count, false, sem, outer, mem, k);
    LatchAfter(p, k);
    assert u.latches[Turn(p.count, k)] == LatchOf(q, p, Turn(p.count, k));
  }

  lemma CompleteLeaves<M>(l: Loop, u: Program, q: Request, p: Plan, sem: Sem<M>, outer: Outer, mem: M, k: nat)
    requires InSsa(l) && p.complete && IsUnrolled(l, p.count, true, u) && Wired(q, p, u.latches) && 0 < k <= p.count
    ensures LeavesAt(u, sem, outer, mem, k) <==>
              k == p.count
                || (LeavesAt(Original(l), sem, outer, mem, k) && q.preserveCondBr && !(q.preserveOnlyFirst && k != 1))
  {
    SameCondition(l, u, p.count, true, sem, outer, mem, k);
    TurnGrows(p.count, k);
    assert u.latches[k - 1] == LatchOf(q, p, k - 1);
    if k == p.count { ModIs(k, p.count, 1, 0); } else { ModIs(k, p.count, 0, k); }
  }

  /** The unrolled loop is left after exactly the original number of iterations if and only if the plan
      is exact for that number. */
  lemma TripsExactly<M>(l: Loop, u: Program, q: Request, p: Plan, sem: Sem<M>, outer: Outer, mem: M, n: nat)
    requires InSsa(l) && IsUnrolled(l, p.count, p.complete, u) && Wired(q, p, u.latches)
    requires Trips(Original(l), sem, outer, mem, n)
    ensures Trips(u, sem, outer, mem, n) <==> Exact(q, p, n)
  {
    if p.complete {
      forall k | 0 < k <= n && k <= p.count
        ensures LeavesAt(u, sem, outer, mem, k) <==>
                  k == p.count
                    || (LeavesAt(Original(l), sem, outer, mem, k) && q.preserveCondBr
                        && !(q.preserveOnlyFirst && k != 1))
      {
        CompleteLeaves(l, u, q, p, sem, outer, mem, k);
      }
      if n > p.count { assert LeavesAt(u, sem, outer, mem, p.count); }
    } else {
      forall k | 0 < k <= n
        ensures LeavesAt(u, sem, outer, mem, k) <==> LeavesAt(Original(l), sem, outer, mem, k) && KeptAt(p, k % p.count)
      {
        PartialLeaves(l, u, q, p, sem, outer, mem, k);
      }
    }
  }

  /** What the caller of the unroller knows about the number of iterations. */
  predicate Promised(q: Request, p: Plan, n: nat)
    requires p.count > 0 && q.tripMultiple > 0
  {
    if q.tripCount != 0 then n == q.tripCount
    else if p.runtime then n % p.count == 0
    else n % q.tripMultiple == 0
  }

  /** With a known trip count, a trip multiple, or a remainder loop in front, dropping the conditions is
      exact. */
  lemma PromisedExact(q: Request, n: nat)
    requires Sensible(q) && Decide(q).Some? && n > 0 && Promised(q, Decide(q).value, n)
    ensures Exact(q, Decide(q).value, n)
  {
    var p := Decide(q).value;
    if q.tripCount == 0 {
      GcdDivides(p.count, q.tripMultiple);
      var g := p.multiple;
      if p.runtime {
        ModIs(0, g, 0, 0);
      } else {
        DividesMod0(q.tripMultiple, n);
        DividesTrans(g, q.tripMultiple, n);
        DividesRest(g, n, p.count);
        DividesMod0(g, n % p.count);
      }
    }
  }

  /** Unrolling preserves the loop: the same number of iterations, the same memory, the same values for the
      exit block. */
  lemma UnrollPreserves<M>(l: Loop, u: Program, q: Request, sem: Sem<M>, outer: Outer, mem: M, n: nat)
    requires InSsa(l) && Sensible(q) && Decide(q).Some?
    requires var p := Decide(q).value; IsUnrolled(l, p.count, p.complete, u) && Wired(q, p, u.latches)
    requires Trips(Original(l), sem, outer, mem, n) && Promised(q, Decide(q).value, n)
    ensures Trips(u, sem, outer, mem, n) && Outcome(u, sem, outer, mem, n) == Outcome(Original(l), sem, outer, mem, n)
  {
    var p := Decide(q).value;
    PromisedExact(q, n);
    TripsExactly(l, u, q, p, sem, outer, mem, n);
    SameOutcome(l, u, p.count, p.complete, sem, outer, mem, n);
  }

  // ---- how the redirection pass calls it ------------------------------------------------------------------

  /** `DefaultUnrollLoop(loop, count, count, …)`: the unroll count is passed as the trip count. */
  function Default(count: nat): Request { Request(count, count, 1, true, false, true, false, false) }

  /** The loop is replaced by `count` copies in a row. That is right exactly for loops that make `count`
      iterations; any other loop changes its number of iterations. */
  lemma DefaultExact<M>(l: Loop, u: Program, count: nat, sem: Sem<M>, outer: Outer, mem: M, n: nat)
    requires InSsa(l) && count > 0
    requires IsUnrolled(l, count, true, u)
    requires Wired(Default(count), Plan(count, true, false, count % count, 0), u.latches)
    requires Trips(Original(l), sem, outer, mem, n)
    ensures Decide(Default(count)) == Some(Plan(count, true, false, count % count, 0))
    ensures Trips(u, sem, outer, mem, n) <==> n == count
    ensures n == count ==> Outcome(u, sem, outer, mem, n) == Outcome(Original(l), sem, outer, mem, n)
  {
    TripsExactly(l, u, Default(count), Plan(count, true, false, count % count, 0), sem, outer, mem, n);
    if n == count { SameOutcome(l, u, count, true, sem, outer, mem, n); }
  }

  /** A loop without instructions that makes one iteration, and what unrolling it twice makes of it. */
  const ONE_TURN := Loop([], [], Outside(0), [])
  const TWO_COPIES := Program([], [[], []], [Outside(0), Outside(0)], [[], []], [Always, Leave])

  /** Unrolled twice because its instruction has two lines, the loop no longer stops after one iteration. */
  lemma DefaultBreaks<M>(sem: Sem<M>, mem: M)
    ensures var outer: Outer := _ => 0;
            && InSsa(ONE_TURN) && IsUnrolled(ONE_TURN, 2, true, TWO_COPIES)
            && Wired(Default(2), Plan(2, true, false, 0, 0), TWO_COPIES.latches)
            && Trips(Original(ONE_TURN), sem, outer, mem, 1) && !Trips(TWO_COPIES, sem, outer, mem, 1)
            && Trips(TWO_COPIES, sem, outer, mem, 2)
  {
    var outer: Outer := _ => 0;
    assert Turn(2, 2) == 1;
  }
}
