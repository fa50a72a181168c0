/** The profiler's index of live blocks (runtime/MallocInfo.h) behind its reader/writer spin lock
    (runtime/SharedSpinLock.h), as atomic steps of any number of threads. */
module LiveIndex {
  import opened Options
  import opened OrderedKeys

  datatype Live = Live(id: nat, size: nat)
  datatype Record = Record(addr: nat, id: nat, size: nat)
  datatype Hit = Hit(id: nat, offset: nat)

  type Table = map<nat, Live>

  // ---- the lookup --------------------------------------------------------------------------------------

  predicate HasBelow(alive: Table, addr: nat) { exists k :: k in alive.Keys && k <= addr }

  /** `upper_bound(addr)` followed by one step back. */
  function Pred(alive: Table, addr: nat): Option<nat> {
    if HasBelow(alive, addr) then Some(Floor(alive.Keys, addr)) else None
  }

  function Check(alive: Table, addr: nat, k: Option<nat>): Option<Hit>
    requires k.Some? ==> k.value in alive && k.value <= addr
  {
    if k.Some? && k.value + alive[k.value].size > addr then Some(Hit(alive[k.value].id, addr - k.value)) else None
  }

  predicate Covers(alive: Table, s: nat, addr: nat) { s in alive && s <= addr < s + alive[s].size }

  /** The answer a scan of all live blocks gives. */
  ghost predicate Answers(alive: Table, addr: nat, r: Option<Hit>) {
    match r
    case None => forall s :: !Covers(alive, s, addr)
    case Some(hit) => exists s :: Covers(alive, s, addr) && hit == Hit(alive[s].id, addr - s)
  }

  ghost predicate Disjoint(alive: Table) { forall a, b :: a in alive && b in alive && a < b ==> a + alive[a].size <= b }

  /** For disjoint blocks, looking at the predecessor alone is as good as scanning all of them. */
  lemma LookupIsScan(alive: Table, addr: nat)
    requires Disjoint(alive)
    ensures Answers(alive, addr, Check(alive, addr, Pred(alive, addr)))
  {
    var k := Pred(alive, addr);
    if Check(alive, addr, k).Some? {
      assert Covers(alive, k.value, addr);
    } else {
      forall s: nat ensures !Covers(alive, s, addr) {
        if s in alive && s <= addr { assert s in alive.Keys && HasBelow(alive, addr); }
      }
    }
  }

  // ---- the threads -----------------------------------------------------------------------------------

  datatype Op = Insert(start: nat, size: nat) | Erase(addr: nat)

  datatype Pc =
    | Idle
    | Peek(addr: nat)                           // lock_shared: about to read write_now
    | Enter(addr: nat)                          // about to increment readers_count
    | Recheck(addr: nat)                        // about to read write_now again
    | Retreat(addr: nat)                        // about to decrement and start over
    | Upper(addr: nat)                          // inside: about to search the index
    | Entry(addr: nat, k: Option<nat>)          // inside: about to read the entry found
    | Leave(addr: nat, r: Option<Hit>)          // unlock_shared
    | Answer(addr: nat, r: Option<Hit>)         // outside again, with the result
    | Claim(op: Op)                             // lock: about to exchange write_now
    | Drain(op: Op)                             // waiting for the readers to leave
    | Update(op: Op)                            // inside: about to begin the change of the index
    | Finish(op: Op)                            // inside: the index is half changed
    | Release(op: Op)                           // unlock
    | Log(op: Op)                               // insert: about to append to data_total
    | Count(op: Op)                             // insert: about to increment id

  datatype State = State(
    pc: map<nat, Pc>,
    readers: int,
    writing: bool,
    alive: Table,
    torn: bool,
    total: seq<Record>,
    nextId: nat)

  predicate Counted(pc: Pc) { pc.Recheck? || pc.Retreat? || pc.Upper? || pc.Entry? || pc.Leave? }
  predicate Reading(pc: Pc) { pc.Upper? || pc.Entry? || pc.Leave? }
  predicate Claimed(pc: Pc) { pc.Drain? || pc.Update? || pc.Finish? || pc.Release? }
  predicate Writing(pc: Pc) { pc.Update? || pc.Finish? || pc.Release? }

  /** Inside `insert`, of which there is one call at a time. */
  predicate Inserting(pc: Pc) { (pc.Claim? || Claimed(pc) || pc.Log? || pc.Count?) && pc.op.Insert? }

  datatype Action = Find(t: nat, addr: nat) | Change(t: nat, op: Op) | Go(t: nat)

  /** What `malloc` promises of the block it returns. */
  predicate Fresh(alive: Table, start: nat, size: nat) {
    forall b :: b in alive ==>
      (b < start ==> b + alive[b].size <= start) && (start <= b ==> start + size <= b && start != b)
  }

  predicate Enabled(s: State, a: Action) {
    && a.t in s.pc
    && match a
       case Find(t, _) => s.pc[t].Idle?
       case Change(t, op) => s.pc[t].Idle? && (op.Insert? ==> forall u :: u in s.pc ==> !Inserting(s.pc[u]))
       case Go(t) =>
         match s.pc[t]
         case Idle => false
         case Entry(addr, k) => k.Some? ==> k.value in s.alive && k.value <= addr
         case Finish(Insert(start, size)) => Fresh(s.alive, start, size)
         case _ => true
  }

  function Changed(alive: Table, op: Op, id: nat): Table {
    match op
    case Insert(start, size) => alive[start := Live(id, size)]
    case Erase(addr) => alive - {addr}
  }

  function Move(s: State, t: nat, pc: Pc): State { s.(pc := s.pc[t := pc]) }

  function Read(s: State, t: nat): State
    requires Enabled(s, Go(t))
  {
    match s.pc[t]
    case Peek(addr) => Move(s, t, if s.writing then Peek(addr) else Enter(addr))
    case Enter(addr) => Move(s, t, Recheck(addr)).(readers := s.readers + 1)
    case Recheck(addr) => Move(s, t, if s.writing then Retreat(addr) else Upper(addr))
    case Retreat(addr) => Move(s, t, Peek(addr)).(readers := s.readers - 1)
    case Upper(addr) => Move(s, t, Entry(addr, Pred(s.alive, addr)))
    case Entry(addr, k) => Move(s, t, Leave(addr, Check(s.alive, addr, k)))
    case Leave(addr, r) => Move(s, t, Answer(addr, r)).(readers := s.readers - 1)
    case Answer(_, _) => Move(s, t, Idle)
    case _ => s
  }

  function Write(s: State, t: nat): State
    requires Enabled(s, Go(t))
  {
    match s.pc[t]
    case Claim(op) => Move(s, t, if s.writing then Claim(op) else Drain(op)).(writing := true)
    case Drain(op) => Move(s, t, if s.readers != 0 then Drain(op) else Update(op))
    case Update(op) => Move(s, t, Finish(op)).(torn := true)
    case Finish(op) => Move(s, t, Release(op)).(torn := false, alive := Changed(s.alive, op, s.nextId))
    case Release(op) => Move(s, t, if op.Insert? then Log(op) else Idle).(writing := false)
    case Log(op) =>
      if op.Insert? then Move(s, t, Count(op)).(total := s.total + [Record(op.start, s.nextId, op.size)]) else s
    case Count(op) => Move(s, t, Idle).(nextId := s.nextId + 1)
    case _ => s
  }

  predicate IsWriter(pc: Pc) { pc.Claim? || Claimed(pc) || pc.Log? || pc.Count? }

  function Step(s: State, a: Action): State
    requires Enabled(s, a)
  {
    match a
    case Find(t, addr) => Move(s, t, Peek(addr))
    case Change(t, op) => Move(s, t, Claim(op))
    case Go(t) => if IsWriter(s.pc[t]) then Write(s, t) else Read(s, t)
  }

  predicate Initial(s: State) {
    && (forall t :: t in s.pc ==> s.pc[t].Idle?)
    && s == State(s.pc, 0, false, map[], false, [], 0)
  }
}
