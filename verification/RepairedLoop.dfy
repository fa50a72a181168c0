/** The repaired program: the unrolled loop, with every copy of a hooked access displaced by its entry of the table
    (RedirectPtr/GroupFuncLoop.h), run on relocated memory computes what the original loop computes. */
module RepairedLoop {
  import opened Options
  import opened Segments
  import opened Layout
  import opened Relocation
  import opened LoopIR
  import opened Unroll
  import opened UnrollCorrect
  import opened UnrollTrips
  import opened Redirects
  import opened RepairFile

  // ---- instructions that access memory --------------------------------------------------------------------------

  datatype Kind = Compute | Fetch | Put

  /** What the operations do: a value computed from the operands, and the block and offset they access. */
  datatype Machine = Machine(kind: nat -> Kind, value: (nat, seq<int>) -> int, addr: (nat, seq<int>) -> (nat, int))

  function Act(m: Machine, op: nat, args: seq<int>, mem: Memory): (int, Memory) {
    match m.kind(op)
    case Compute => (m.value(op, args), mem)
    case Fetch => (mem(m.addr(op, args).0, m.addr(op, args).1), mem)
    case Put => (0, WriteTo(mem, m.addr(op, args).0, m.addr(op, args).1, m.value(op, args)))
  }

  function Meaning(m: Machine): Sem<Memory> { (op, args, mem) => Act(m, op, args, mem) }

  /** `mark(op, d)` is the operation with `d` added to its pointer operand. */
  ghost predicate Displaces(m: Machine, mark: (nat, int) -> nat) {
    forall op, d :: Displaced(m, op, mark(op, d), d)
  }

  ghost predicate Displaced(m: Machine, op: nat, op': nat, d: int) {
    && m.kind(op') == m.kind(op)
    && (forall args :: m.value(op', args) == m.value(op, args))
    && (forall args :: m.addr(op', args) == (m.addr(op, args).0, m.addr(op, args).1 + d))
  }

  /** `offsetSimplInst`. */
  function Offsetting(ins: Instr, table: map<Value, Expanded>, mark: (nat, int) -> nat): Instr {
    if ins.dst in table && table[ins.dst].Offset? then
      ins.(op := mark(ins.op, table[ins.dst].redirect.to - table[ins.dst].redirect.from))
    else ins
  }

  function OffsetCode(code: seq<Instr>, table: map<Value, Expanded>, mark: (nat, int) -> nat): (r: seq<Instr>)
    ensures |r| == |code| && forall i :: 0 <= i < |r| ==> r[i] == Offsetting(code[i], table, mark)
  {
    seq(|code|, i requires 0 <= i < |code| => Offsetting(code[i], table, mark))
  }

  /** The loop over the final table in `GroupFuncLoop`. */
  function Redirected(p: Program, table: map<Value, Expanded>, mark: (nat, int) -> nat): (r: Program)
    ensures |r.copies| == |p.copies|
    ensures forall c :: 0 <= c < |r.copies| ==> r.copies[c] == OffsetCode(p.copies[c], table, mark)
    ensures r.phis == p.phis && r.conds == p.conds && r.exits == p.exits && r.latches == p.latches
  {
    p.(copies := seq(|p.copies|, c requires 0 <= c < |p.copies| => OffsetCode(p.copies[c], table, mark)))
  }

  // ---- what the loop accesses --------------------------------------------------------------------------------------

  /** Byte `x` of the allocation lies in a recorded range that the line of iteration `k + 1` serves. */
  ghost predicate Served(rs: seq<Repaired>, key: Key, block: nat, x: int, k: nat) {
    block < |rs| && exists r: nat :: ServedBy(rs, key, block, x, k, r)
  }

  ghost predicate ServedBy(rs: seq<Repaired>, key: Key, block: nat, x: int, k: nat, r: nat)
    requires block < |rs|
  {
    && r < |Recorded(rs[block].rel, key)| && Recorded(rs[block].rel, key)[r].Contains(x)
    && SameLine(|Handed(rs, key)|, r, k)
  }

  /** With one line every iteration may access every recorded range. */
  lemma OneLineServes(rs: seq<Repaired>, key: Key, block: nat, x: int, k: nat)
    requires block < |rs| && |Handed(rs, key)| == 1
    ensures Served(rs, key, block, x, k) <==> Covered(Recorded(rs[block].rel, key), x)
  {
    var segs := Recorded(rs[block].rel, key);
    if Covered(segs, x) {
      var s :| s in segs && s.Contains(x);
      var r: nat :| r < |segs| && segs[r] == s;
      assert ServedBy(rs, key, block, x, k, r);
    }
    if Served(rs, key, block, x, k) {
      var r: nat :| ServedBy(rs, key, block, x, k, r);
      assert segs[r] in segs;
    }
  }

  /** A hooked access stays in the ranges that its line serves: all recorded ranges if there is one line. Other
      accesses stay out of repaired blocks. */
  ghost predicate Behaves(rs: seq<Repaired>, keys: map<nat, Key>, m: Machine, op: nat, args: seq<int>, h: nat, k: nat) {
    m.kind(op) != Compute ==>
      var (block, x) := m.addr(op, args);
      if h in keys then Served(rs, keys[h], block, x, k) else block >= |rs|
  }

  /** The state of the original loop before instruction `i` of iteration `k + 1`. */
  function Before(l: Loop, m: Machine, outer: Outer, mem: Memory, k: nat, i: nat): Config<Memory>
    requires i <= |l.body|
  {
    Exec(Meaning(m), outer, l.body, i, AtBody(Original(l), Meaning(m), outer, mem, k + 1))
  }

  /** The first `n` iterations of the loop access only what was recorded for them. */
  ghost predicate AsRecorded(rs: seq<Repaired>, keys: map<nat, Key>, l: Loop, m: Machine, outer: Outer, mem: Memory,
                             n: nat) {
    forall k: nat, i: nat {:trigger Before(l, m, outer, mem, k, i)} :: k < n && i < |l.body| ==>
      Behaves(rs, keys, m, l.body[i].op, Looks(outer, Before(l, m, outer, mem, k, i).env, l.body[i].args),
              |l.phis| + i, k)
  }

  /** The table gives the copy that runs as iteration `k + 1` of a hooked instruction the line of that iteration, and
      nothing to other instructions. */
  ghost predicate Tables(rs: seq<Repaired>, keys: map<nat, Key>, count: nat, table: map<Value, Expanded>, n: nat)
    requires count > 0
  {
    && (forall h, k: nat :: h in keys && k < n ==> CarriesAt(rs, keys[h], count, table, h, k))
    && (forall v :: v in table ==> v.Local? && v.id in keys)
  }

  ghost predicate Carries(rs: seq<Repaired>, key: Key, table: map<Value, Expanded>, v: Value, k: nat) {
    && v in table && table[v].Offset? && Handed(rs, key) != []
    && table[v].redirect.to - table[v].redirect.from == Move(Handed(rs, key), k)
  }

  ghost predicate CarriesAt(rs: seq<Repaired>, key: Key, count: nat, table: map<Value, Expanded>, h: nat, k: nat)
    requires count > 0
  {
    Carries(rs, key, table, Local(h, Turn(count, k + 1)), k)
  }

  // ---- simulation --------------------------------------------------------------------------------------------------

  /** The relocated memory: repaired blocks are moved, others are the same. */
  ghost predicate Related(rs: seq<Repaired>, mem: Memory, mem': Memory) {
    SameBlocks(rs, mem, mem') && forall b: nat, y :: b >= |rs| ==> mem'(b, y) == mem(b, y)
  }

  ghost function MovedBlocks(rs: seq<Repaired>, mem: Memory): Memory {
    (b: nat, y) => if b < |rs| then Moved(rs[b].plan, x => mem(b, x))(y) else mem(b, y)
  }

  /** Every memory has its relocated counterpart. */
  lemma MovedRelated(rs: seq<Repaired>, mem: Memory)
    requires AllKept(rs)
    ensures Related(rs, mem, MovedBlocks(rs, mem))
  {
    forall j, x: nat | 0 <= j < |rs| && CoveredByte(rs[j].plan, x)
      ensures MovedBlocks(rs, mem)(j, Reloc(rs[j].plan, x)) == mem(j, x)
    {
      ContentsExist(rs[j].plan, x => mem(j, x));
    }
  }

  lemma RelatedWrite(rs: seq<Repaired>, mem: Memory, mem': Memory, block: nat, x: nat, v: int)
    requires AllKept(rs) && Related(rs, mem, mem') && block < |rs| && CoveredByte(rs[block].plan, x)
    ensures Related(rs, WriteTo(mem, block, x, v), WriteTo(mem', block, Reloc(rs[block].plan, x), v))
  {
    WriteMoves(rs, mem, mem', block, x, v);
  }

  lemma RelatedElsewhere(rs: seq<Repaired>, mem: Memory, mem': Memory, block: nat, x: int, v: int)
    requires Related(rs, mem, mem') && block >= |rs|
    ensures Related(rs, WriteTo(mem, block, x, v), WriteTo(mem', block, x, v))
  {
  }

  /** Adding `d` takes the access to the new place of its byte. */
  ghost predicate GoesTo(rs: seq<Repaired>, m: Machine, op: nat, args: seq<int>, d: int) {
    var (block, x) := m.addr(op, args);
    block < |rs| && x >= 0 && CoveredByte(rs[block].plan, x) && x + d == Reloc(rs[block].plan, x)
  }

  lemma HookedGoes(rs: seq<Repaired>, keys: map<nat, Key>, m: Machine, op: nat, args: seq<int>, h: nat, k: nat)
    requires AllKept(rs) && h in keys && Compatible(rs, keys[h]) && Handed(rs, keys[h]) != []
    requires Behaves(rs, keys, m, op, args, h, k) && m.kind(op) != Compute
    ensures GoesTo(rs, m, op, args, Move(Handed(rs, keys[h]), k))
  {
    var (block, x) := m.addr(op, args);
    var r: nat :| ServedBy(rs, keys[h], block, x, k, r);
    AccessMoves(rs, block, Load(keys[h], r, x));
    SameLineMoves(Handed(rs, keys[h]), r, k);
  }

  lemma RelatedRead(rs: seq<Repaired>, mem: Memory, mem': Memory, block: nat, x: nat)
    requires Related(rs, mem, mem') && block < |rs| && CoveredByte(rs[block].plan, x)
    ensures mem'(block, Reloc(rs[block].plan, x)) == mem(block, x)
  {
  }

  /** The same operation with another address. */
  ghost predicate Alike(m: Machine, op: nat, op': nat, args: seq<int>) {
    m.kind(op') == m.kind(op) && m.value(op', args) == m.value(op, args)
  }

  /** The displaced address is the new place of the byte. */
  ghost predicate Reaches(rs: seq<Repaired>, m: Machine, op: nat, op': nat, args: seq<int>) {
    var (block, x) := m.addr(op, args);
    && block < |rs| && x >= 0 && CoveredByte(rs[block].plan, x)
    && m.addr(op', args) == (block, Reloc(rs[block].plan, x))
  }

  lemma GoesReaches(rs: seq<Repaired>, m: Machine, op: nat, op': nat, args: seq<int>, d: int)
    requires GoesTo(rs, m, op, args, d) && m.addr(op', args) == (m.addr(op, args).0, m.addr(op, args).1 + d)
    ensures Reaches(rs, m, op, op', args)
  {
  }

  /** A hooked access, displaced, does on relocated memory what it did. */
  lemma HookedActs(rs: seq<Repaired>, m: Machine, op: nat, op': nat, args: seq<int>, mem: Memory, mem': Memory)
    requires AllKept(rs) && Related(rs, mem, mem') && Alike(m, op, op', args)
    requires m.kind(op) != Compute ==> Reaches(rs, m, op, op', args)
    ensures Act(m, op', args, mem').0 == Act(m, op, args, mem).0
    ensures Related(rs, Act(m, op, args, mem).1, Act(m, op', args, mem').1)
  {
    if m.kind(op) != Compute {
      var (block, x) := m.addr(op, args);
      if m.kind(op) == Put { RelatedWrite(rs, mem, mem', block, x, m.value(op, args)); }
      else { RelatedRead(rs, mem, mem', block, x); }
    }
  }

  lemma OtherActs(rs: seq<Repaired>, m: Machine, op: nat, args: seq<int>, mem: Memory, mem': Memory)
    requires Related(rs, mem, mem') && (m.kind(op) != Compute ==> m.addr(op, args).0 >= |rs|)
    ensures Act(m, op, args, mem').0 == Act(m, op, args, mem).0
    ensures Related(rs, Act(m, op, args, mem).1, Act(m, op, args, mem').1)
  {
    if m.kind(op) != Compute {
      var (block, x) := m.addr(op, args);
      assert mem'(block, x) == mem(block, x);
      if m.kind(op) == Put { RelatedElsewhere(rs, mem, mem', block, x, m.value(op, args)); }
    }
  }

  /** Same values, relocated memory. */
  ghost predicate Twin(rs: seq<Repaired>, c: Config<Memory>, c': Config<Memory>) {
    c.env == c'.env && Related(rs, c.mem, c'.mem)
  }

  ghost predicate AllCompatible(rs: seq<Repaired>, keys: map<nat, Key>) {
    AllKept(rs) && forall h :: h in keys ==> Compatible(rs, keys[h])
  }

  /** The instruction finds its line, or has none. */
  ghost predicate Entitled(rs: seq<Repaired>, keys: map<nat, Key>, table: map<Value, Expanded>, v: Value, k: nat) {
    v.Local? && if v.id in keys then Carries(rs, keys[v.id], table, v, k) else v !in table
  }

  lemma DoTwin(rs: seq<Repaired>, m: Machine, outer: Outer, ins: Instr, op': nat, c: Config<Memory>, c': Config<Memory>)
    requires Twin(rs, c, c')
    requires var args := Looks(outer, c.env, ins.args);
             && Act(m, op', args, c'.mem).0 == Act(m, ins.op, args, c.mem).0
             && Related(rs, Act(m, ins.op, args, c.mem).1, Act(m, op', args, c'.mem).1)
    ensures Twin(rs, Do(Meaning(m), outer, ins, c), Do(Meaning(m), outer, ins.(op := op'), c'))
  {
  }

  lemma DisplacedAt(m: Machine, op: nat, op': nat, d: int, args: seq<int>)
    requires Displaced(m, op, op', d)
    ensures Alike(m, op, op', args) && m.addr(op', args) == (m.addr(op, args).0, m.addr(op, args).1 + d)
  {
  }

  lemma HookedTwin(rs: seq<Repaired>, m: Machine, outer: Outer, ins: Instr, op': nat, c: Config<Memory>,
                   c': Config<Memory>)
    requires AllKept(rs) && Twin(rs, c, c') && Alike(m, ins.op, op', Looks(outer, c.env, ins.args))
    requires m.kind(ins.op) != Compute ==> Reaches(rs, m, ins.op, op', Looks(outer, c.env, ins.args))
    ensures Twin(rs, Do(Meaning(m), outer, ins, c), Do(Meaning(m), outer, ins.(op := op'), c'))
  {
    HookedActs(rs, m, ins.op, op', Looks(outer, c.env, ins.args), c.mem, c'.mem);
    DoTwin(rs, m, outer, ins, op', c, c');
  }

  lemma OtherTwin(rs: seq<Repaired>, m: Machine, outer: Outer, ins: Instr, c: Config<Memory>, c': Config<Memory>)
    requires Twin(rs, c, c')
    requires m.kind(ins.op) != Compute ==> m.addr(ins.op, Looks(outer, c.env, ins.args)).0 >= |rs|
    ensures Twin(rs, Do(Meaning(m), outer, ins, c), Do(Meaning(m), outer, ins, c'))
  {
    OtherActs(rs, m, ins.op, Looks(outer, c.env, ins.args), c.mem, c'.mem);
    DoTwin(rs, m, outer, ins, ins.op, c, c');
  }

  /** The table suits an instruction: with the displacement found there it goes to the new place of its byte; without
      one it stays out of repaired blocks. */
  ghost predicate Suits(rs: seq<Repaired>, m: Machine, table: map<Value, Expanded>, ins: Instr, args: seq<int>) {
    m.kind(ins.op) != Compute ==>
      if ins.dst in table && table[ins.dst].Offset? then
        GoesTo(rs, m, ins.op, args, table[ins.dst].redirect.to - table[ins.dst].redirect.from)
      else m.addr(ins.op, args).0 >= |rs|
  }

  lemma LineSuits(rs: seq<Repaired>, keys: map<nat, Key>, m: Machine, table: map<Value, Expanded>, ins: Instr,
                  args: seq<int>, k: nat)
    requires AllCompatible(rs, keys) && Entitled(rs, keys, table, ins.dst, k)
    requires Behaves(rs, keys, m, ins.op, args, ins.dst.id, k)
    ensures Suits(rs, m, table, ins, args)
  {
    if m.kind(ins.op) != Compute && ins.dst.id in keys { HookedGoes(rs, keys, m, ins.op, args, ins.dst.id, k); }
  }

  /** The redirected instruction reaches the new place, or an unrepaired block. */
  ghost predicate Ready(rs: seq<Repaired>, m: Machine, ins: Instr, ins': Instr, args: seq<int>) {
    && ins' == ins.(op := ins'.op)
    && (ins' == ins ==> m.kind(ins.op) != Compute ==>
        Reaches(rs, m, ins.op, ins.op, args) || m.addr(ins.op, args).0 >= |rs|)
    && (ins' != ins ==> Alike(m, ins.op, ins'.op, args))
    && (ins' != ins ==> m.kind(ins.op) != Compute ==> Reaches(rs, m, ins.op, ins'.op, args))
  }

  lemma SuitsReady(rs: seq<Repaired>, m: Machine, mark: (nat, int) -> nat, table: map<Value, Expanded>, ins: Instr,
                   args: seq<int>)
    requires Displaces(m, mark) && Suits(rs, m, table, ins, args)
    ensures Ready(rs, m, ins, Offsetting(ins, table, mark), args)
  {
    if ins.dst in table && table[ins.dst].Offset? {
      var d := table[ins.dst].redirect.to - table[ins.dst].redirect.from;
      DisplacedAt(m, ins.op, mark(ins.op, d), d, args);
      if m.kind(ins.op) != Compute { GoesReaches(rs, m, ins.op, mark(ins.op, d), args, d); }
    }
  }

  /** One instruction of a copy and its redirected form. */
  lemma InstrTwin(rs: seq<Repaired>, m: Machine, outer: Outer, ins: Instr, ins': Instr, c: Config<Memory>,
                  c': Config<Memory>)
    requires AllKept(rs) && Twin(rs, c, c') && Ready(rs, m, ins, ins', Looks(outer, c.env, ins.args))
    ensures Twin(rs, Do(Meaning(m), outer, ins, c), Do(Meaning(m), outer, ins', c'))
  {
    var args := Looks(outer, c.env, ins.args);
    if ins' == ins && m.kind(ins.op) != Compute && m.addr(ins.op, args).0 >= |rs| {
      OtherTwin(rs, m, outer, ins, c, c');
    }
    else { HookedTwin(rs, m, outer, ins, ins'.op, c, c'); }
  }

  // ---- whole runs --------------------------------------------------------------------------------------------------

  /** The state of a program before instruction `i` of its copy number `k + 1`. */
  function Midway(p: Program, m: Machine, outer: Outer, mem: Memory, k: nat, i: nat): Config<Memory>
    requires |p.copies| > 0 && i <= |p.copies[Slot(p, k + 1)]|
  {
    Exec(Meaning(m), outer, p.copies[Slot(p, k + 1)], i, AtBody(p, Meaning(m), outer, mem, k + 1))
  }

  ghost predicate SuitsAt(rs: seq<Repaired>, m: Machine, table: map<Value, Expanded>, p: Program, outer: Outer,
                          mem: Memory, k: nat, i: nat)
    requires |p.copies| > 0 && i < |p.copies[Slot(p, k + 1)]|
  {
    var ins := p.copies[Slot(p, k + 1)][i];
    Suits(rs, m, table, ins, Looks(outer, Midway(p, m, outer, mem, k, i).env, ins.args))
  }

  /** The table suits the first `n` copies of a run. */
  ghost predicate SuitsRun(rs: seq<Repaired>, m: Machine, table: map<Value, Expanded>, p: Program, outer: Outer,
                           mem: Memory, n: nat)
    requires |p.copies| > 0
  {
    forall k: nat, i: nat :: k < n && i < |p.copies[Slot(p, k + 1)]| ==> SuitsAt(rs, m, table, p, outer, mem, k, i)
  }

  lemma {:induction false} CodeTwin(rs: seq<Repaired>, m: Machine, mark: (nat, int) -> nat, table: map<Value, Expanded>,
                                    p: Program, outer: Outer, mem: Memory, k: nat, i: nat, c': Config<Memory>)
    requires AllKept(rs) && Displaces(m, mark) && |p.copies| > 0 && i <= |p.copies[Slot(p, k + 1)]|
    requires forall j: nat :: j < |p.copies[Slot(p, k + 1)]| ==> SuitsAt(rs, m, table, p, outer, mem, k, j)
    requires Twin(rs, AtBody(p, Meaning(m), outer, mem, k + 1), c')
    ensures Twin(rs, Midway(p, m, outer, mem, k, i),
                 Exec(Meaning(m), outer, OffsetCode(p.copies[Slot(p, k + 1)], table, mark), i, c'))
    decreases i
  {
    if i > 0 {
      CodeTwin(rs, m, mark, table, p, outer, mem, k, i - 1, c');
      var code := p.copies[Slot(p, k + 1)];
      assert SuitsAt(rs, m, table, p, outer, mem, k, i - 1);
      var before, ins := Midway(p, m, outer, mem, k, i - 1), code[i - 1];
      SuitsReady(rs, m, mark, table, ins, Looks(outer, before.env, ins.args));
      InstrTwin(rs, m, outer, ins, Offsetting(ins, table, mark), before,
                Exec(Meaning(m), outer, OffsetCode(code, table, mark), i - 1, c'));
    }
  }

  /** The redirected program on relocated memory runs beside the program itself. */
  lemma {:induction false} RunTwin(rs: seq<Repaired>, m: Machine, mark: (nat, int) -> nat, table: map<Value, Expanded>,
                                   p: Program, outer: Outer, mem: Memory, mem': Memory, n: nat)
    requires AllKept(rs) && Displaces(m, mark) && |p.copies| > 0 && SuitsRun(rs, m, table, p, outer, mem, n)
    requires Related(rs, mem, mem')
    ensures Twin(rs, Run(p, Meaning(m), outer, mem, n), Run(Redirected(p, table, mark), Meaning(m), outer, mem', n))
    decreases n
  {
    if n > 0 {
      RunTwin(rs, m, mark, table, p, outer, mem, mem', n - 1);
      var p' := Redirected(p, table, mark);
      assert Slot(p', n) == Slot(p, n);
      var code := p.copies[Slot(p, n)];
      CodeTwin(rs, m, mark, table, p, outer, mem, n - 1, |code|, AtBody(p', Meaning(m), outer, mem', n));
    }
  }

  // ---- from the recorded accesses of the loop to the copies ---------------------------------------------------------

  /** An instruction of a copy finds the operands the original finds in that iteration. */
  lemma CopyArgs(l: Loop, p: Program, count: nat, complete: bool, m: Machine, outer: Outer, mem: Memory, k: nat, i: nat)
    requires InSsa(l) && IsUnrolled(l, count, complete, p) && (complete ==> k < count) && i < |l.body|
    ensures var code := p.copies[Slot(p, k + 1)];
            && |code| == |l.body| && code[i].op == l.body[i].op
            && code[i].dst == Local(|l.phis| + i, Turn(count, k + 1))
            && Looks(outer, Midway(p, m, outer, mem, k, i).env, code[i].args) ==
               Looks(outer, Before(l, m, outer, mem, k, i).env, l.body[i].args)
  {
    var c := Turn(count, k + 1);
    EntryAgrees(l, p, count, complete, Meaning(m), outer, mem, k + 1);
    BodyAgrees(l, complete, c, i, Meaning(m), outer, AtBody(Original(l), Meaning(m), outer, mem, k + 1),
               AtBody(p, Meaning(m), outer, mem, k + 1));
    assert p.copies[c] == SubCode(l.phis, Gone(l, complete), Copy(l, c));
    ArgsAgree(l, complete, c, i, outer, Before(l, m, outer, mem, k, i).env, Midway(p, m, outer, mem, k, i).env,
              l.body[i].args);
  }

  lemma EntitledAt(rs: seq<Repaired>, keys: map<nat, Key>, count: nat, table: map<Value, Expanded>, n: nat, h: nat,
                   k: nat)
    requires count > 0 && Tables(rs, keys, count, table, n) && k < n
    ensures Entitled(rs, keys, table, Local(h, Turn(count, k + 1)), k)
  {
    assert h in keys ==> CarriesAt(rs, keys[h], count, table, h, k);
  }

  lemma CopyBehaves(rs: seq<Repaired>, keys: map<nat, Key>, l: Loop, p: Program, count: nat, complete: bool, m: Machine,
                    outer: Outer, mem: Memory, n: nat, k: nat, i: nat)
    requires InSsa(l) && IsUnrolled(l, count, complete, p) && (complete ==> n <= count)
    requires AsRecorded(rs, keys, l, m, outer, mem, n) && k < n && i < |l.body|
    ensures var code := p.copies[Slot(p, k + 1)];
            && |code| == |l.body| && code[i].dst == Local(|l.phis| + i, Turn(count, k + 1))
            && Behaves(rs, keys, m, code[i].op, Looks(outer, Midway(p, m, outer, mem, k, i).env, code[i].args),
                       |l.phis| + i, k)
  {
    CopyArgs(l, p, count, complete, m, outer, mem, k, i);
    var before := Before(l, m, outer, mem, k, i);
  }

  lemma CopySuits(rs: seq<Repaired>, keys: map<nat, Key>, l: Loop, p: Program, count: nat, complete: bool, m: Machine,
                  table: map<Value, Expanded>, outer: Outer, mem: Memory, n: nat, k: nat, i: nat)
    requires InSsa(l) && IsUnrolled(l, count, complete, p) && (complete ==> n <= count) && AllCompatible(rs, keys)
    requires AsRecorded(rs, keys, l, m, outer, mem, n) && Tables(rs, keys, count, table, n)
    requires k < n && i < |l.body|
    ensures |p.copies[Slot(p, k + 1)]| == |l.body| && SuitsAt(rs, m, table, p, outer, mem, k, i)
  {
    CopyBehaves(rs, keys, l, p, count, complete, m, outer, mem, n, k, i);
    EntitledAt(rs, keys, count, table, n, |l.phis| + i, k);
    var ins := p.copies[Slot(p, k + 1)][i];
    LineSuits(rs, keys, m, table, ins, Looks(outer, Midway(p, m, outer, mem, k, i).env, ins.args), k);
  }

  lemma RunSuits(rs: seq<Repaired>, keys: map<nat, Key>, l: Loop, p: Program, count: nat, complete: bool, m: Machine,
                 table: map<Value, Expanded>, outer: Outer, mem: Memory, n: nat)
    requires InSsa(l) && IsUnrolled(l, count, complete, p) && (complete ==> n <= count) && AllCompatible(rs, keys)
    requires AsRecorded(rs, keys, l, m, outer, mem, n) && Tables(rs, keys, count, table, n)
    ensures SuitsRun(rs, m, table, p, outer, mem, n)
  {
    forall k: nat, i: nat | k < n && i < |p.copies[Slot(p, k + 1)]| ensures SuitsAt(rs, m, table, p, outer, mem, k, i) {
      assert |p.copies[Slot(p, k + 1)]| == |l.body|;
      CopySuits(rs, keys, l, p, count, complete, m, table, outer, mem, n, k, i);
    }
  }

  lemma SuitsFewer(rs: seq<Repaired>, m: Machine, table: map<Value, Expanded>, p: Program, outer: Outer, mem: Memory,
                   n: nat, k: nat)
    requires |p.copies| > 0 && SuitsRun(rs, m, table, p, outer, mem, n) && k <= n
    ensures SuitsRun(rs, m, table, p, outer, mem, k)
  {
  }

  /** Redirection changes neither the number of iterations nor the values for the exit block, and leaves relocated
      memory. */
  lemma RedirectedSame(rs: seq<Repaired>, m: Machine, mark: (nat, int) -> nat, table: map<Value, Expanded>, p: Program,
                       outer: Outer, mem: Memory, mem': Memory, n: nat)
    requires AllKept(rs) && Displaces(m, mark) && Shaped(p) && SuitsRun(rs, m, table, p, outer, mem, n)
    requires Related(rs, mem, mem') && Trips(p, Meaning(m), outer, mem, n)
    ensures var p' := Redirected(p, table, mark);
            && Trips(p', Meaning(m), outer, mem', n)
            && Outcome(p', Meaning(m), outer, mem', n).0 == Outcome(p, Meaning(m), outer, mem, n).0
            && Related(rs, Outcome(p, Meaning(m), outer, mem, n).1, Outcome(p', Meaning(m), outer, mem', n).1)
  {
    var p' := Redirected(p, table, mark);
    forall k | 0 < k <= n
      ensures LeavesAt(p', Meaning(m), outer, mem', k) <==> LeavesAt(p, Meaning(m), outer, mem, k)
    {
      SuitsFewer(rs, m, table, p, outer, mem, n, k);
      RunTwin(rs, m, mark, table, p, outer, mem, mem', k);
      assert Slot(p', k) == Slot(p, k);
    }
    RunTwin(rs, m, mark, table, p, outer, mem, mem', n);
    assert Slot(p', n) == Slot(p, n);
  }

  // ---- the whole pass on one loop -----------------------------------------------------------------------------------

  lemma OriginalUnrolled(l: Loop)
    requires InSsa(l)
    ensures IsUnrolled(l, 1, false, Original(l))
  {
    SubNone(l.phis, l.body, l.exits);
    forall i | 0 <= i < |l.body| ensures Copy(l, 0)[i] == l.body[i] {
      assert LatestAll(l, 0, l.body[i].args) == l.body[i].args;
    }
    assert LatestAll(l, 0, l.exits) == l.exits;
  }

  /** The hooked instructions carry the lines their threads are handed. */
  ghost predicate HandedTo(rs: seq<Repaired>, keys: map<nat, Key>, insts: map<nat, Threaded>) {
    insts.Keys == keys.Keys && forall h :: h in keys ==> insts[h] == Lines(Handed(rs, keys[h]))
  }

  lemma EntryIs(insts: map<nat, Threaded>, count: nat, table: map<Value, Expanded>, h: nat, c: nat)
    requires Tabled(insts, insts.Keys, count, table) && h in insts && Size(insts[h]) == count && c < count
    ensures Local(h, c) in table && table[Local(h, c)] == Part(insts[h], c)
  {
  }

  lemma CarriesPart(rs: seq<Repaired>, key: Key, count: nat, table: map<Value, Expanded>, h: nat, k: nat)
    requires count > 0 && |Handed(rs, key)| == count && Turn(count, k + 1) == k % count
    requires var c := Turn(count, k + 1);
             Local(h, c) in table && table[Local(h, c)] == Offset(Handed(rs, key)[c])
    ensures CarriesAt(rs, key, count, table, h, k)
  {
  }

  lemma TablesFrom(rs: seq<Repaired>, keys: map<nat, Key>, insts: map<nat, Threaded>, count: nat,
                   table: map<Value, Expanded>, n: nat)
    requires count > 0 && HandedTo(rs, keys, insts) && SameSize(insts, count) && Tabled(insts, insts.Keys, count, table)
    ensures Tables(rs, keys, count, table, n)
  {
    forall h, k: nat | h in keys && k < n ensures CarriesAt(rs, keys[h], count, table, h, k) {
      assert Size(insts[h]) == count && insts[h] == Lines(Handed(rs, keys[h]));
      TurnMod(count, k + 1);
      EntryIs(insts, count, table, h, Turn(count, k + 1));
      CarriesPart(rs, keys[h], count, table, h, k);
    }
  }

  /** The loop as the pass leaves it: number of iterations, exit values and memory are those of the original loop, if
      the loop accesses what was recorded for it, its lines are compatible, it does not mix instructions of one and of
      several lines, and it makes as many iterations as there are lines where there are several. */
  lemma LoopPreserved(rs: seq<Repaired>, keys: map<nat, Key>, l: Loop, insts: map<nat, Threaded>, p: Program,
                      table: map<Value, Expanded>, m: Machine, mark: (nat, int) -> nat, outer: Outer,
                      mem: Memory, mem': Memory, n: nat)
    requires InSsa(l) && AllCompatible(rs, keys) && HandedTo(rs, keys, insts) && Grouped(l, insts, p, table)
    requires Several(insts) == map[] || (Several(insts) == insts && n == |p.copies|)
    requires Displaces(m, mark) && Related(rs, mem, mem') && AsRecorded(rs, keys, l, m, outer, mem, n)
    requires Trips(Original(l), Meaning(m), outer, mem, n)
    ensures var p', o := Redirected(p, table, mark), Outcome(Original(l), Meaning(m), outer, mem, n);
            && Shaped(p') && Trips(p', Meaning(m), outer, mem', n)
            && Outcome(p', Meaning(m), outer, mem', n).0 == o.0
            && Related(rs, o.1, Outcome(p', Meaning(m), outer, mem', n).1)
  {
    var count := |p.copies|;
    ServedIff(insts, count, table);
    TablesFrom(rs, keys, insts, count, table, n);
    if Several(insts) == map[] {
      OriginalUnrolled(l);
      RunSuits(rs, keys, l, p, 1, false, m, table, outer, mem, n);
    } else {
      RunSuits(rs, keys, l, p, count, true, m, table, outer, mem, n);
      DefaultExact(l, p, count, Meaning(m), outer, mem, n);
    }
    RedirectedSame(rs, m, mark, table, p, outer, mem, mem', n);
  }
}
