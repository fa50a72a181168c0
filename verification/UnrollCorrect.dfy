/** Unrolling preserves what the loop computes. */
module UnrollCorrect {
  import opened LoopIR
  import opened Unroll

  /** The name under which the unrolled code finds the value `v` of copy `c`. */
  function Name(l: Loop, complete: bool, c: nat, v: Value): Value { Sub(l.phis, Gone(l, complete), Latest(l, c, v)) }

  /** Every value known after `n` body instructions is found under its new name. */
  ghost predicate Agree(l: Loop, complete: bool, c: nat, n: nat, outer: Outer, orig: map<Value, int>,
                        unrolled: map<Value, int>) {
    forall v {:trigger Known(l, n, v)} :: Known(l, n, v) ==>
      Look(outer, unrolled, Name(l, complete, c, v)) == Look(outer, orig, v)
  }

  /** The name of a phi belongs to an earlier copy, or to the header. */
  lemma {:induction false} PhiName(l: Loop, c: nat, v: Value)
    requires InSsa(l) && v.Local? && v.copy == 0 && v.id < |l.phis|
    ensures var w := Latest(l, c, v); w.Outside? || (w.copy == 0 && w.id < |l.phis|) || (w.id >= |l.phis| && w.copy < c)
  {
    if c > 0 {
      var next := l.phis[v.id].next;
      if next.Local? && next.id < |l.phis| { PhiName(l, c - 1, next); }
    }
  }

  lemma NamesApart(l: Loop, complete: bool, c: nat, n: nat, v: Value)
    requires InSsa(l) && Known(l, n, v) && n < |l.body|
    ensures Name(l, complete, c, v) != Local(|l.phis| + n, c)
  {
    if v.Local? && v.id < |l.phis| { PhiName(l, c, v); }
  }

  lemma ArgsAgree(l: Loop, complete: bool, c: nat, n: nat, outer: Outer, orig: map<Value, int>,
                  unrolled: map<Value, int>, vs: seq<Value>)
    requires Agree(l, complete, c, n, outer, orig, unrolled) && AllKnown(l, n, vs)
    ensures Looks(outer, unrolled, SubAll(l.phis, Gone(l, complete), LatestAll(l, c, vs))) == Looks(outer, orig, vs)
  {}

  lemma DefAgrees(l: Loop, complete: bool, c: nat, n: nat, outer: Outer, orig: map<Value, int>,
                  unrolled: map<Value, int>, x: int)
    requires InSsa(l) && n < |l.body| && Agree(l, complete, c, n, outer, orig, unrolled)
    ensures Agree(l, complete, c, n + 1, outer, orig[Local(|l.phis| + n, 0) := x],
                  unrolled[Local(|l.phis| + n, c) := x])
  {
    var o, u := orig[Local(|l.phis| + n, 0) := x], unrolled[Local(|l.phis| + n, c) := x];
    forall v | Known(l, n + 1, v) ensures Look(outer, u, Name(l, complete, c, v)) == Look(outer, o, v) {
      if Known(l, n, v) {
        NamesApart(l, complete, c, n, v);
      } else {
        assert v == Local(|l.phis| + n, 0) && Name(l, complete, c, v) == Local(|l.phis| + n, c);
      }
    }
  }

  ghost predicate Match<M>(l: Loop, complete: bool, c: nat, n: nat, outer: Outer, orig: Config<M>,
                           unrolled: Config<M>) {
    Agree(l, complete, c, n, outer, orig.env, unrolled.env) && orig.mem == unrolled.mem
  }

  lemma OneAgrees<M>(l: Loop, complete: bool, c: nat, n: nat, sem: Sem<M>, outer: Outer, orig: Config<M>,
                     unrolled: Config<M>)
    requires InSsa(l) && n < |l.body| && Match(l, complete, c, n, outer, orig, unrolled)
    ensures Match(l, complete, c, n + 1, outer, Do(sem, outer, l.body[n], orig),
                  Do(sem, outer, SubCode(l.phis, Gone(l, complete), Copy(l, c))[n], unrolled))
  {
    ArgsAgree(l, complete, c, n, outer, orig.env, unrolled.env, l.body[n].args);
    DefAgrees(l, complete, c, n, outer, orig.env, unrolled.env,
              sem(l.body[n].op, Looks(outer, orig.env, l.body[n].args), orig.mem).0);
  }

  /** A copy of the body does what the body does. */
  lemma {:induction false} BodyAgrees<M>(l: Loop, complete: bool, c: nat, n: nat, sem: Sem<M>, outer: Outer,
                                         orig: Config<M>, unrolled: Config<M>)
    requires InSsa(l) && n <= |l.body| && Match(l, complete, c, 0, outer, orig, unrolled)
    ensures Match(l, complete, c, n, outer, Exec(sem, outer, l.body, n, orig),
                  Exec(sem, outer, SubCode(l.phis, Gone(l, complete), Copy(l, c)), n, unrolled))
    decreases n
  {
    if n > 0 {
      var code := SubCode(l.phis, Gone(l, complete), Copy(l, c));
      BodyAgrees(l, complete, c, n - 1, sem, outer, orig, unrolled);
      var o, u := Exec(sem, outer, l.body, n - 1, orig), Exec(sem, outer, code, n - 1, unrolled);
      OneAgrees(l, complete, c, n - 1, sem, outer, o, u);
      assert Exec(sem, outer, l.body, n, orig) == Do(sem, outer, l.body[n - 1], o);
      assert Exec(sem, outer, code, n, unrolled) == Do(sem, outer, code[n - 1], u);
    }
  }

  // ---- entering a copy ----------------------------------------------------------------------------------

  /** All phis read the old environment, so they may swap values. */
  lemma {:induction false} EnterAt(outer: Outer, incoming: seq<Value>, n: nat, env: map<Value, int>, v: Value)
    requires n <= |incoming|
    ensures Look(outer, Enter(outer, incoming, n, env), v) ==
              if v.Local? && v.copy == 0 && v.id < n then Look(outer, env, incoming[v.id]) else Look(outer, env, v)
  {
    if n > 0 { EnterAt(outer, incoming, n - 1, env, v); }
  }

  /** The phis of the first iteration take the preheader's values, whether they are kept or replaced. */
  lemma FirstEntry<M>(l: Loop, u: Program, count: nat, complete: bool, sem: Sem<M>, outer: Outer, mem: M)
    requires InSsa(l) && IsUnrolled(l, count, complete, u)
    ensures Match(l, complete, 0, 0, outer, AtBody(Original(l), sem, outer, mem, 1), AtBody(u, sem, outer, mem, 1))
  {
    var none: map<Value, int> := map[];
    forall v | Known(l, 0, v)
      ensures Look(outer, AtBody(u, sem, outer, mem, 1).env, Name(l, complete, 0, v)) ==
                Look(outer, AtBody(Original(l), sem, outer, mem, 1).env, v)
    {
      EnterAt(outer, Reads(l.phis, true), |l.phis|, none, v);
      EnterAt(outer, Reads(u.phis, true), |u.phis|, none, Name(l, complete, 0, v));
    }
  }

  /** The original header is entered again with the values the last iteration left. */
  lemma OriginalEntry<M>(l: Loop, sem: Sem<M>, outer: Outer, mem: M, k: nat, v: Value)
    requires InSsa(l) && k > 1 && Known(l, 0, v)
    ensures var prev := Run(Original(l), sem, outer, mem, k - 1);
            && AtBody(Original(l), sem, outer, mem, k).mem == prev.mem
            && Look(outer, AtBody(Original(l), sem, outer, mem, k).env, v) ==
                 Look(outer, prev.env, if v.Outside? then v else l.phis[v.id].next)
  {
    var prev := Run(Original(l), sem, outer, mem, k - 1);
    assert Slot(Original(l), k) == 0;
    EnterAt(outer, Reads(l.phis, false), |l.phis|, prev.env, v);
  }

  /** Falling from copy `c - 1` into copy `c` is entering the next iteration. */
  lemma NextEntry<M>(l: Loop, u: Program, count: nat, complete: bool, sem: Sem<M>, outer: Outer, mem: M, k: nat)
    requires InSsa(l) && IsUnrolled(l, count, complete, u) && k > 1 && Turn(count, k) != 0
    requires Match(l, complete, Turn(count, k - 1), |l.body|, outer, Run(Original(l), sem, outer, mem, k - 1),
                   Run(u, sem, outer, mem, k - 1))
    ensures Match(l, complete, Turn(count, k), 0, outer, AtBody(Original(l), sem, outer, mem, k),
                  AtBody(u, sem, outer, mem, k))
  {
    var c := Turn(count, k);
    OriginalEntry(l, sem, outer, mem, k, Outside(0));
    forall v | Known(l, 0, v)
      ensures Look(outer, AtBody(u, sem, outer, mem, k).env, Name(l, complete, c, v)) ==
                Look(outer, AtBody(Original(l), sem, outer, mem, k).env, v)
    {
      OriginalEntry(l, sem, outer, mem, k, v);
      var w := if v.Outside? then v else l.phis[v.id].next;
      assert Known(l, |l.body|, w);
      assert Latest(l, c, v) == Latest(l, c - 1, w);
    }
  }

  /** Jumping from the last copy back to the header is entering the next iteration. */
  lemma BackEntry<M>(l: Loop, u: Program, count: nat, sem: Sem<M>, outer: Outer, mem: M, k: nat)
    requires InSsa(l) && IsUnrolled(l, count, false, u) && k > 1 && Turn(count, k) == 0
    requires Match(l, false, count - 1, |l.body|, outer, Run(Original(l), sem, outer, mem, k - 1),
                   Run(u, sem, outer, mem, k - 1))
    ensures Match(l, false, 0, 0, outer, AtBody(Original(l), sem, outer, mem, k), AtBody(u, sem, outer, mem, k))
  {
    var prev := Run(u, sem, outer, mem, k - 1);
    OriginalEntry(l, sem, outer, mem, k, Outside(0));
    forall v | Known(l, 0, v)
      ensures Look(outer, AtBody(u, sem, outer, mem, k).env, Name(l, false, 0, v)) ==
                Look(outer, AtBody(Original(l), sem, outer, mem, k).env, v)
    {
      OriginalEntry(l, sem, outer, mem, k, v);
      EnterAt(outer, Reads(u.phis, false), |u.phis|, prev.env, v);
      var w := if v.Outside? then v else l.phis[v.id].next;
      assert Known(l, |l.body|, w);
    }
  }

  lemma CopyRuns<M>(l: Loop, u: Program, count: nat, complete: bool, sem: Sem<M>, outer: Outer, mem: M, k: nat)
    requires InSsa(l) && IsUnrolled(l, count, complete, u) && k > 0
    requires Match(l, complete, Turn(count, k), 0, outer, AtBody(Original(l), sem, outer, mem, k),
                   AtBody(u, sem, outer, mem, k))
    ensures Match(l, complete, Turn(count, k), |l.body|, outer, Run(Original(l), sem, outer, mem, k),
                  Run(u, sem, outer, mem, k))
  {
    BodyAgrees(l, complete, Turn(count, k), |l.body|, sem, outer, AtBody(Original(l), sem, outer, mem, k),
               AtBody(u, sem, outer, mem, k));
    assert Slot(Original(l), k) == 0;
  }

  /** The first `count` turns go through the copies in order. */
  lemma {:induction false} TurnGrows(count: nat, k: nat)
    requires count > 0 && k > 0
    ensures k <= count ==> Turn(count, k) == k - 1
  {
    if 1 < k <= count { TurnGrows(count, k - 1); }
  }

  lemma Entry<M>(l: Loop, u: Program, count: nat, complete: bool, sem: Sem<M>, outer: Outer, mem: M, k: nat)
    requires InSsa(l) && IsUnrolled(l, count, complete, u) && k > 1 && (complete ==> k <= count)
    requires Match(l, complete, Turn(count, k - 1), |l.body|, outer, Run(Original(l), sem, outer, mem, k - 1),
                   Run(u, sem, outer, mem, k - 1))
    ensures Match(l, complete, Turn(count, k), 0, outer, AtBody(Original(l), sem, outer, mem, k),
                  AtBody(u, sem, outer, mem, k))
  {
    TurnGrows(count, k);
    if Turn(count, k) == 0 { BackEntry(l, u, count, sem, outer, mem, k); }
    else { NextEntry(l, u, count, complete, sem, outer, mem, k); }
  }

  /** After any number of copies the unrolled code is in the state of as many iterations. A completely
      unrolled loop has `count` copies to run. */
  lemma {:induction false} RunAgrees<M>(l: Loop, u: Program, count: nat, complete: bool, sem: Sem<M>, outer: Outer,
                                        mem: M, k: nat)
    requires InSsa(l) && IsUnrolled(l, count, complete, u) && k > 0 && (complete ==> k <= count)
    ensures Match(l, complete, Turn(count, k), |l.body|, outer, Run(Original(l), sem, outer, mem, k),
                  Run(u, sem, outer, mem, k))
    decreases k
  {
    if k == 1 {
      FirstEntry(l, u, count, complete, sem, outer, mem);
    } else {
      RunAgrees(l, u, count, complete, sem, outer, mem, k - 1);
      Entry(l, u, count, complete, sem, outer, mem, k);
    }
    CopyRuns(l, u, count, complete, sem, outer, mem, k);
  }

  /** Every copy begins in the state in which its iteration begins. */
  lemma EntryAgrees<M>(l: Loop, u: Program, count: nat, complete: bool, sem: Sem<M>, outer: Outer, mem: M, k: nat)
    requires InSsa(l) && IsUnrolled(l, count, complete, u) && k > 0 && (complete ==> k <= count)
    ensures Match(l, complete, Turn(count, k), 0, outer, AtBody(Original(l), sem, outer, mem, k),
                  AtBody(u, sem, outer, mem, k))
  {
    if k == 1 {
      FirstEntry(l, u, count, complete, sem, outer, mem);
    } else {
      RunAgrees(l, u, count, complete, sem, outer, mem, k - 1);
      Entry(l, u, count, complete, sem, outer, mem, k);
    }
  }

  /** Leaving the unrolled loop after `k` copies delivers what leaving the loop after `k` iterations does. */
  lemma SameOutcome<M>(l: Loop, u: Program, count: nat, complete: bool, sem: Sem<M>, outer: Outer, mem: M, k: nat)
    requires InSsa(l) && IsUnrolled(l, count, complete, u) && |u.latches| == count && k > 0 && (complete ==> k <= count)
    ensures Outcome(u, sem, outer, mem, k) == Outcome(Original(l), sem, outer, mem, k)
  {
    RunAgrees(l, u, count, complete, sem, outer, mem, k);
    var o, r := Run(Original(l), sem, outer, mem, k), Run(u, sem, outer, mem, k);
    ArgsAgree(l, complete, Turn(count, k), |l.body|, outer, o.env, r.env, l.exits);
    assert Slot(Original(l), k) == 0;
  }

  /** So does the latch condition of each copy. */
  lemma SameCondition<M>(l: Loop, u: Program, count: nat, complete: bool, sem: Sem<M>, outer: Outer, mem: M, k: nat)
    requires InSsa(l) && IsUnrolled(l, count, complete, u) && |u.latches| == count && k > 0 && (complete ==> k <= count)
    ensures Look(outer, Run(u, sem, outer, mem, k).env, u.conds[Slot(u, k)]) == 0 <==>
              LeavesAt(Original(l), sem, outer, mem, k)
  {
    RunAgrees(l, u, count, complete, sem, outer, mem, k);
    assert Slot(Original(l), k) == 0 && Known(l, |l.body|, l.cond);
  }
}
