/** The loops the unroller works on: header phis, a straight-line SSA body, one latch.

    Values are numbered: header phi `i` defines value `i`, body instruction `i` defines value
    `|phis| + i`. `Local(id, copy)` is the value `id` of the given copy of the body. */
module LoopIR {
  datatype Value = Outside(x: nat) | Local(id: nat, copy: nat)

  /** The incoming values from the preheader and from the latch. */
  datatype Phi = Phi(init: Value, next: Value)

  datatype Instr = Instr(dst: Value, op: nat, args: seq<Value>)

  /** How a copy of the latch ends: a conditional exit, a jump to the next header, a jump out. */
  datatype Latch = Conditional | Always | Leave

  /** Header phis, then copies of the body, each with the condition of its latch (zero exits) and the
      values it passes to the phis of the exit block. */
  datatype Program = Program(phis: seq<Phi>, copies: seq<seq<Instr>>, conds: seq<Value>, exits: seq<seq<Value>>,
                             latches: seq<Latch>)

  /** The loop before unrolling. */
  datatype Loop = Loop(phis: seq<Phi>, body: seq<Instr>, cond: Value, exits: seq<Value>)

  function Original(l: Loop): Program { Program(l.phis, [l.body], [l.cond], [l.exits], [Conditional]) }

  /** Defined outside the loop, by a phi, or by one of the first `n` body instructions. */
  predicate Known(l: Loop, n: nat, v: Value) { v.Outside? || (v.copy == 0 && v.id < |l.phis| + n) }

  predicate AllKnown(l: Loop, n: nat, vs: seq<Value>) { forall i :: 0 <= i < |vs| ==> Known(l, n, vs[i]) }

  /** SSA form: every use is dominated by its definition. */
  ghost predicate InSsa(l: Loop) {
    && (forall i :: 0 <= i < |l.phis| ==> l.phis[i].init.Outside? && Known(l, |l.body|, l.phis[i].next))
    && (forall i :: 0 <= i < |l.body| ==> l.body[i].dst == Local(|l.phis| + i, 0) && AllKnown(l, i, l.body[i].args))
    && Known(l, |l.body|, l.cond) && AllKnown(l, |l.body|, l.exits)
  }

  // ---- meaning ------------------------------------------------------------------------------------

  /** What an operation computes from its operands and the memory is left open. */
  type Sem<!M> = (nat, seq<int>, M) -> (int, M)
  type Outer = nat -> int

  datatype Config<M> = Config(env: map<Value, int>, mem: M)

  function Look(outer: Outer, env: map<Value, int>, v: Value): int {
    if v.Outside? then outer(v.x) else if v in env then env[v] else 0
  }

  function Looks(outer: Outer, env: map<Value, int>, vs: seq<Value>): (r: seq<int>)
    ensures |r| == |vs|
  {
    seq(|vs|, i requires 0 <= i < |vs| => Look(outer, env, vs[i]))
  }

  function Do<M>(sem: Sem<M>, outer: Outer, ins: Instr, c: Config<M>): Config<M> {
    var r := sem(ins.op, Looks(outer, c.env, ins.args), c.mem);
    Config(c.env[ins.dst := r.0], r.1)
  }

  /** The first `n` instructions of `code`. */
  function Exec<M>(sem: Sem<M>, outer: Outer, code: seq<Instr>, n: nat, c: Config<M>): Config<M>
    requires n <= |code|
  {
    if n == 0 then c else Do(sem, outer, code[n - 1], Exec(sem, outer, code, n - 1, c))
  }

  /** The first `n` phis, all reading the old environment. */
  function Enter(outer: Outer, incoming: seq<Value>, n: nat, env: map<Value, int>): map<Value, int>
    requires n <= |incoming|
  {
    if n == 0 then env else Enter(outer, incoming, n - 1, env)[Local(n - 1, 0) := Look(outer, env, incoming[n - 1])]
  }

  function Reads(phis: seq<Phi>, first: bool): (r: seq<Value>)
    ensures |r| == |phis|
  {
    seq(|phis|, i requires 0 <= i < |phis| => if first then phis[i].init else phis[i].next)
  }

  /** The copies take turns: which of `count` copies is executed as number `k`. */
  function Turn(count: nat, k: nat): (c: nat)
    requires count > 0 && k > 0
    ensures c < count
  {
    if k == 1 then 0 else var c := Turn(count, k - 1); if c + 1 == count then 0 else c + 1
  }

  function Slot(u: Program, k: nat): (c: nat)
    requires |u.copies| > 0 && k > 0
    ensures c < |u.copies|
  {
    Turn(|u.copies|, k)
  }

  /** The state in which copy number `k` of the run begins its body. */
  function AtBody<M>(u: Program, sem: Sem<M>, outer: Outer, mem: M, k: nat): Config<M>
    requires |u.copies| > 0 && k > 0
    decreases k, 0
  {
    var p := Run(u, sem, outer, mem, k - 1);
    if Slot(u, k) == 0 then p.(env := Enter(outer, Reads(u.phis, k == 1), |u.phis|, p.env)) else p
  }

  /** The state after `k` copies of the body have been executed one after the other. */
  function Run<M>(u: Program, sem: Sem<M>, outer: Outer, mem: M, k: nat): Config<M>
    requires |u.copies| > 0
    decreases k, 1
  {
    if k == 0 then Config(map[], mem)
    else
      var code := u.copies[Slot(u, k)];
      Exec(sem, outer, code, |code|, AtBody(u, sem, outer, mem, k))
  }

  predicate Shaped(u: Program) {
    |u.copies| > 0 && |u.conds| == |u.copies| && |u.exits| == |u.copies| && |u.latches| == |u.copies|
  }

  /** The latch after the `k`-th copy leaves the loop. */
  predicate LeavesAt<M>(u: Program, sem: Sem<M>, outer: Outer, mem: M, k: nat)
    requires Shaped(u) && k > 0
  {
    var c := Slot(u, k);
    u.latches[c].Leave? || (u.latches[c].Conditional? && Look(outer, Run(u, sem, outer, mem, k).env, u.conds[c]) == 0)
  }

  /** The loop is left after exactly `n` copies of the body. */
  ghost predicate Trips<M>(u: Program, sem: Sem<M>, outer: Outer, mem: M, n: nat)
    requires Shaped(u)
  {
    n > 0 && LeavesAt(u, sem, outer, mem, n) && forall k :: 0 < k < n ==> !LeavesAt(u, sem, outer, mem, k)
  }

  /** The memory and the values of the exit phis when the loop is left after `n` copies. */
  function Outcome<M>(u: Program, sem: Sem<M>, outer: Outer, mem: M, n: nat): (seq<int>, M)
    requires Shaped(u) && n > 0
  {
    var c := Run(u, sem, outer, mem, n);
    (Looks(outer, c.env, u.exits[Slot(u, n)]), c.mem)
  }
}
