/** From repair lines to unrolled instructions: `PCInfo`, `ThreadedPCInfo` (RedirectPtr/Utils.h) and
    `UnrollLoopPass` (RedirectPtr/UnrollLoopPass.h). Copy `k` of an instruction receives its `k`-th line. */
module Redirects {
  import opened Options
  import opened Sorting
  import opened LoopIR
  import opened Unroll
  import opened UnrollTrips

  datatype Redirect = Redirect(from: int, to: int)

  predicate RedirectBefore(a: Redirect, b: Redirect) { a.from < b.from || (a.from == b.from && a.to < b.to) }

  /** `std::sort` on pairs. */
  function Arranged(rs: seq<Redirect>): (s: seq<Redirect>)
    ensures Ordered(RedirectBefore, s) && multiset(s) == multiset(rs) && |s| == |rs|
  {
    SortContents(RedirectBefore, rs);
    Sort(RedirectBefore, rs)
  }

  // ---- PCInfo --------------------------------------------------------------------------------------------

  /** A line of one program counter: the thread and its redirection. */
  datatype PcLine = PcLine(tid: nat, redirect: Redirect)

  /** The redirections of one thread, in file order. */
  function Of(lines: seq<PcLine>, tid: nat): seq<Redirect> {
    if lines == [] then []
    else
      var n := |lines| - 1;
      if lines[n].tid == tid then Of(lines[..n], tid) + [lines[n].redirect] else Of(lines[..n], tid)
  }

  ghost predicate Listed(lines: seq<PcLine>, all: map<nat, seq<Redirect>>) {
    forall t :: (t in all <==> Of(lines, t) != []) && (t in all ==> all[t] == Of(lines, t))
  }

  method Gather(lines: seq<PcLine>) returns (all: map<nat, seq<Redirect>>)
    ensures Listed(lines, all)
  {
    all := map[];
    for i := 0 to |lines|
      invariant Listed(lines[..i], all)
    {
      assert lines[..i + 1][..i] == lines[..i];
      var l := lines[i];
      all := all[l.tid := (if l.tid in all then all[l.tid] else []) + [l.redirect]];
    }
    assert lines[..|lines|] == lines;
  }

  /** The constructor of `PCInfo`: grouped by thread, each group sorted. */
  method BuildInfo(lines: seq<PcLine>) returns (all: map<nat, seq<Redirect>>)
    ensures forall t :: t in all <==> Of(lines, t) != []
    ensures forall t :: t in all ==> all[t] == Arranged(Of(lines, t))
  {
    all := Gather(lines);
    var todo := all.Keys;
    while todo != {}
      invariant todo <= all.Keys && forall t :: t in all <==> Of(lines, t) != []
      invariant forall t :: t in all ==> all[t] == if t in todo then Of(lines, t) else Arranged(Of(lines, t))
      decreases |todo|
    {
      var t :| t in todo;
      all := all[t := Arranged(all[t])];
      todo := todo - {t};
    }
  }

  // ---- what one thread's copy of a function does to an instruction --------------------------------------------

  datatype Threaded = Lines(redirects: seq<Redirect>) | Callees(funcs: seq<nat>) | Alloc(add: int)
  datatype Expanded = Offset(redirect: Redirect) | Callee(func: nat) | Grow(add: int)

  function Size(info: Threaded): nat {
    match info
    case Lines(rs) => |rs|
    case Callees(fs) => |fs|
    case Alloc(_) => 1
  }

  /** `getLoopWise`; the source asserts the index. */
  function Part(info: Threaded, k: nat): Expanded
    requires k < Size(info)
  {
    match info
    case Lines(rs) => Offset(rs[k])
    case Callees(fs) => Callee(fs[k])
    case Alloc(add) => Grow(add)
  }

  ghost predicate SameSize(insts: map<nat, Threaded>, n: nat) { forall h :: h in insts ==> Size(insts[h]) == n }

  /** `getLoopUnrollCount`: the common size, or failure if two instructions disagree. */
  method UnrollCount(insts: map<nat, Threaded>) returns (r: Option<nat>)
    requires insts.Keys != {}
    ensures r.Some? ==> SameSize(insts, r.value)
    ensures r.None? ==> forall n :: !SameSize(insts, n)
  {
    var todo, size := insts.Keys, None;
    while todo != {}
      invariant todo <= insts.Keys && (todo == insts.Keys || size.Some?)
      invariant size.Some? ==> (exists h :: h in insts && Size(insts[h]) == size.value)
      invariant forall h :: h in insts && h !in todo ==> size.Some? && Size(insts[h]) == size.value
      decreases |todo|
    {
      var h :| h in todo;
      var next := Size(insts[h]);
      if size.None? { size := Some(next); }
      else if size.value != next { return None; }
      todo := todo - {h};
    }
    r := size;
  }

  ghost predicate Tabled(insts: map<nat, Threaded>, ids: set<nat>, count: nat, table: map<Value, Expanded>) {
    && (forall h, k :: h in ids && h in insts && 0 <= k < count && k < Size(insts[h]) ==>
          Local(h, k) in table && table[Local(h, k)] == Part(insts[h], k))
    && (forall v :: v in table ==> v.Local? && v.id in ids && v.copy < count)
  }

  /** One instruction of `storeHookInfoToTable`: the original gets part 0, clone `i` part `i + 1`. */
  method StoreOne(insts: map<nat, Threaded>, ids: set<nat>, h: nat, count: nat, clones: seq<Value>,
                  table: map<Value, Expanded>)
    returns (table': map<Value, Expanded>)
    requires h in insts && h !in ids && Size(insts[h]) == count && count > 0 && ClonesOf(h, count - 1, clones)
    requires Tabled(insts, ids, count, table)
    ensures Tabled(insts, ids + {h}, count, table')
  {
    table' := table[Local(h, 0) := Part(insts[h], 0)];
    for i := 0 to |clones|
      invariant forall v :: v in table' <==> v in table || (v.Local? && v.id == h && v.copy <= i)
      invariant forall v :: v in table ==> table'[v] == table[v]
      invariant forall k :: 0 <= k <= i ==> table'[Local(h, k)] == Part(insts[h], k)
    {
      table' := table'[clones[i] := Part(insts[h], i + 1)];
    }
  }

  method StoreHooks(insts: map<nat, Threaded>, count: nat, hooks: map<nat, seq<Value>>)
    returns (table: map<Value, Expanded>)
    requires count > 0 && SameSize(insts, count) && Reported(insts.Keys, count - 1, hooks)
    ensures Tabled(insts, insts.Keys, count, table)
  {
    table := map[];
    var todo := hooks.Keys;
    while todo != {}
      invariant todo <= insts.Keys && Tabled(insts, insts.Keys - todo, count, table)
      decreases |todo|
    {
      var h :| h in todo;
      table := StoreOne(insts, insts.Keys - todo, h, count, hooks[h], table);
      assert insts.Keys - todo + {h} == insts.Keys - (todo - {h});
      todo := todo - {h};
    }
    assert insts.Keys - {} == insts.Keys;
  }

  /** `runOnInstGroup`. It fails when sizes differ, or when there is no line at all. */
  method UnrollGroup(l: Loop, insts: map<nat, Threaded>) returns (r: Option<(Program, map<Value, Expanded>)>)
    requires InSsa(l) && insts.Keys != {}
    requires forall h :: h in insts ==> |l.phis| <= h < |l.phis| + |l.body|
    ensures r.Some? <==> exists n :: n > 0 && SameSize(insts, n)
    ensures forall n: nat :: r.Some? && SameSize(insts, n) ==>
              && IsUnrolled(l, n, true, r.value.0)
              && Wired(Default(n), UnrollTrips.Plan.Plan(n, true, false, n % n, 0), r.value.0.latches)
              && Tabled(insts, insts.Keys, n, r.value.1)
  {
    var size := UnrollCount(insts);
    if size.None? { return None; }
    var count := size.value;
    var some :| some in insts.Keys;
    assert forall n :: SameSize(insts, n) ==> n == Size(insts[some]) == count;
    var plan := Decide(Default(count));
    if plan.None? { return None; }
    var latches := Wire(Default(count), plan.value);
    var u, hooks := UnrollLoop(l, count, true, latches, insts.Keys);
    var table := StoreHooks(insts, count, hooks);
    r := Some((u, table));
  }

  /** The copy that runs as iteration `k + 1` carries part `k` modulo the number of copies, and no copy is
      left without one. */
  lemma Aligned(l: Loop, u: Program, insts: map<nat, Threaded>, count: nat, complete: bool, table: map<Value, Expanded>,
                h: nat, k: nat)
    requires InSsa(l) && IsUnrolled(l, count, complete, u) && SameSize(insts, count)
    requires Tabled(insts, insts.Keys, count, table)
    requires h in insts && |l.phis| <= h < |l.phis| + |l.body|
    ensures var code, i := u.copies[Slot(u, k + 1)], k % count;
            && |code| == |l.body| && code[h - |l.phis|].dst == Local(h, i)
            && code[h - |l.phis|].op == l.body[h - |l.phis|].op
            && Local(h, i) in table && table[Local(h, i)] == Part(insts[h], i)
  {
    TurnMod(count, k + 1);
  }

  // ---- all instructions of a loop -----------------------------------------------------------------------------------

  /** Instructions with several lines; those with one are redirected where they are. */
  function Several(insts: map<nat, Threaded>): map<nat, Threaded> {
    map h | h in insts && Size(insts[h]) != 1 :: insts[h]
  }

  /** The final table: part `c` for copy `c`, as far as the instruction has parts and the loop has copies. */
  ghost predicate FinalTable(insts: map<nat, Threaded>, count: nat, table: map<Value, Expanded>) {
    forall v ::
      && (v in table <==> v.Local? && v.id in insts && v.copy < Size(insts[v.id]) && v.copy < count)
      && (v in table ==> table[v] == Part(insts[v.id], v.copy))
  }

  function Firsts(insts: map<nat, Threaded>): map<Value, Expanded> {
    map v: Value | v in (set h | h in insts :: Local(h, 0)) && v.Local? && v.id in insts && Size(insts[v.id]) == 1 ::
      Part(insts[v.id], 0)
  }

  lemma FirstsOnly(insts: map<nat, Threaded>)
    requires Several(insts) == map[]
    ensures FinalTable(insts, 1, Firsts(insts))
  {
    SeveralHas(insts);
    forall v ensures v in Firsts(insts) <==> v.Local? && v.id in insts && v.copy < Size(insts[v.id]) && v.copy < 1 {
      if v.Local? && v.id in insts && v.copy == 0 { assert v == Local(v.id, 0); }
    }
  }

  lemma FirstsAnd(insts: map<nat, Threaded>, count: nat, table: map<Value, Expanded>)
    requires count > 0 && SameSize(Several(insts), count) && Tabled(Several(insts), Several(insts).Keys, count, table)
    ensures FinalTable(insts, count, Firsts(insts) + table)
  {
    var all, several := Firsts(insts) + table, Several(insts);
    forall v
      ensures v in all <==> v.Local? && v.id in insts && v.copy < Size(insts[v.id]) && v.copy < count
      ensures v in all ==> all[v] == Part(insts[v.id], v.copy)
    {
      if v.Local? && v.id in insts {
        if Size(insts[v.id]) == 1 {
          assert v.id !in several && v !in table;
          if v.copy == 0 { assert v == Local(v.id, 0); }
        } else {
          assert v.id in several && several[v.id] == insts[v.id];
          if v.copy < count { assert v == Local(v.id, v.copy) && v in table; }
        }
      }
    }
  }

  /** What becomes of the loop and its instructions. */
  ghost predicate Grouped(l: Loop, insts: map<nat, Threaded>, p: Program, table: map<Value, Expanded>) {
    var n := |p.copies|;
    && FinalTable(insts, n, table)
    && (Several(insts) == map[] ==> p == Original(l))
    && (Several(insts) != map[] ==>
          && n > 1 && SameSize(Several(insts), n) && IsUnrolled(l, n, true, p)
          && Wired(Default(n), UnrollTrips.Plan.Plan(n, true, false, n % n, 0), p.latches))
  }

  /** `GroupFuncLoop` on the instructions of one loop: it is unrolled only for those with several lines. */
  method GroupLoop(l: Loop, insts: map<nat, Threaded>) returns (r: Option<(Program, map<Value, Expanded>)>)
    requires InSsa(l) && forall h :: h in insts ==> |l.phis| <= h < |l.phis| + |l.body|
    ensures r.Some? <==> Several(insts) == map[] || exists n :: n > 1 && SameSize(Several(insts), n)
    ensures r.Some? ==> Grouped(l, insts, r.value.0, r.value.1)
  {
    var several, table := Several(insts), Firsts(insts);
    if several == map[] {
      FirstsOnly(insts);
      return Some((Original(l), table));
    }
    r := UnrollGroup(l, several);
    if r.Some? {
      ghost var n: nat :| n > 0 && SameSize(several, n);
      ghost var h :| h in several;
      assert n == Size(several[h]) != 1;
      FirstsAnd(insts, n, r.value.1);
      r := Some((r.value.0, table + r.value.1));
    }
  }

  /** Every copy of every instruction has its entry. */
  ghost predicate AllServed(insts: map<nat, Threaded>, count: nat, table: map<Value, Expanded>) {
    forall h, c: nat :: h in insts && c < count ==> Local(h, c) in table
  }

  /** The pass serves every copy exactly if the loop does not hold instructions with one line next to instructions
      with several: the clones of the former are never entered into the table. */
  lemma ServedIff(insts: map<nat, Threaded>, count: nat, table: map<Value, Expanded>)
    requires FinalTable(insts, count, table) && (if Several(insts) == map[] then count == 1 else count > 1)
    requires Several(insts) != map[] ==> SameSize(Several(insts), count)
    ensures AllServed(insts, count, table) <==> Several(insts) == map[] || Several(insts) == insts
    ensures AllServed(insts, count, table) ==> SameSize(insts, count) && Tabled(insts, insts.Keys, count, table)
  {
    var several := Several(insts);
    SeveralHas(insts);
    SeveralAll(insts);
    if h :| h in insts && h !in several && several != map[] {
      assert Size(insts[h]) == 1 && Local(h, 1) !in table;
    }
    if several == map[] || several == insts {
      forall h, c: nat | h in insts && c < count ensures Local(h, c) in table {
        assert Size(insts[h]) == count;
      }
    }
  }

  lemma SeveralHas(insts: map<nat, Threaded>)
    ensures forall h :: h in Several(insts) <==> h in insts && Size(insts[h]) != 1
  {
  }

  lemma SeveralAll(insts: map<nat, Threaded>)
    ensures (forall h :: h in insts ==> h in Several(insts)) ==> Several(insts) == insts
  {
  }

  /** A loop with an instruction of one line and one of two: the clone of the first is left without its line. */
  method MixedLoop() returns (u: Program, table: map<Value, Expanded>)
    ensures |u.copies| == 2 && |u.copies[1]| == 2 && u.copies[1][0].dst == Local(0, 1)
    ensures Local(0, 0) in table && Local(1, 0) in table && Local(1, 1) in table && Local(0, 1) !in table
  {
    var l := Loop([], [Instr(Local(0, 0), 0, []), Instr(Local(1, 0), 0, [])], Outside(0), []);
    var one, two := Lines([Redirect(8, 0)]), Lines([Redirect(0, 0), Redirect(64, 8)]);
    var insts: map<nat, Threaded> := map[0 := one, 1 := two];
    SeveralHas(insts);
    assert Several(insts)[1] == two && SameSize(Several(insts), 2);
    var r := GroupLoop(l, insts);
    u, table := r.value.0, r.value.1;
    assert |u.copies| == Size(two);
  }
}
