/** Remote frees and the reaping of dead threads: `prepend_queue`, `scan_queue`, `destroy_tls` and
    `reap_dead` (others/tmi/src/ll_alloc.c), as atomic steps of any number of threads. */
module HazardQueue {
  import opened Options

  type Tid = nat
  type Node = nat
  type Blk = nat

  /** Where a thread stands in `prepend_queue(p, tl, &b->tail)`. A tail pointer is named by the
      thread whose queue it ends. */
  datatype Pc =
    | Idle
    | Read(p: Node, b: Blk)                 // about to read the owner pointer
    | Mark(p: Node, b: Blk, seen: Tid)      // about to publish the hazard pointer
    | Check(p: Node, b: Blk, seen: Tid)     // about to read the owner pointer again
    | Clear(p: Node, to: Tid)               // about to set p->next to NULL
    | Swap(p: Node, to: Tid)                // about to exchange the tail
    | Link(p: Node, to: Tid, prev: Node)    // about to set prev->next to p
    | Unmark(to: Tid)                       // about to withdraw the hazard pointer

  /** Past the check: the thread may touch the queue of `d`. */
  predicate Committed(pc: Pc, d: Tid) {
    (pc.Clear? || pc.Swap? || pc.Link? || pc.Unmark?) && pc.to == d
  }

  /** The thread holds node `p` and has not put it on a queue yet. */
  predicate Holds(pc: Pc, p: Node) {
    (pc.Read? || pc.Mark? || pc.Check? || pc.Clear? || pc.Swap?) && pc.p == p
  }

  datatype Life = Running | Dead | Taken | Freed

  /** Where a thread stands in `reap_dead`, working on the dead thread `d`. */
  datatype Reap =
    | NotReaping
    | Chosen(d: Tid)                        // taken off the dead list
    | Merging(d: Tid)                       // holds h_lock, owner pointers are being changed
    | Scanning(d: Tid, todo: set<Tid>)      // waiting for hazards on d's tail
    | Draining(d: Tid)                      // h_lock released, d's queue is being freed

  datatype Thread = Thread(life: Life, pc: Pc, hazard: Option<Tid>, reap: Reap)

  /** The queues, with five history variables: all nodes ever put on a queue, how many of them have
      been freed, the queue and position of a node, and which thread picked a node up. */
  datatype Queues = Queues(
    head: map<Tid, Node>,
    tail: map<Tid, Node>,
    next: map<Node, Option<Node>>,
    freed: set<Node>,
    hist: map<Tid, seq<Node>>,
    lo: map<Tid, nat>,
    home: map<Node, Tid>,
    pos: map<Node, nat>,
    holder: map<Node, Tid>)

  datatype State = State(
    threads: map<Tid, Thread>,
    owner: map<Blk, Tid>,
    hlock: Option<Tid>,
    hlist: set<Tid>,
    q: Queues)

  datatype Action =
    | Start(t: Tid, n: Node)      // init_atls: a new thread with queue node n
    | Own(t: Tid, b: Blk)         // block_alloc_aux or slab_create
    | Push(t: Tid, p: Node, b: Blk)
    | ReadOwner(t: Tid)
    | SetHazard(t: Tid)
    | CheckOwner(t: Tid)
    | ClearNext(t: Tid)
    | SwapTail(t: Tid)
    | SetNext(t: Tid)
    | ClearHazard(t: Tid)
    | FreeHead(t: Tid)            // one round of scan_queue on the own queue
    | Die(t: Tid)                 // destroy_tls
    | Choose(t: Tid, d: Tid)
    | LockList(t: Tid)
    | TakeBlock(t: Tid, b: Blk)   // one owner pointer is redirected
    | StartScan(t: Tid)
    | SeeClear(t: Tid, u: Tid)
    | EndScan(t: Tid)
    | DrainHead(t: Tid)           // one round of scan_queue on the dead queue
    | Finish(t: Tid)              // the last node and the thread data are freed

  predicate Runs(s: State, t: Tid) { t in s.threads && s.threads[t].life == Running }

  /** The head node of queue `t` is freed and the queue advances to `n`. */
  function Advance(q: Queues, t: Tid, n: Node): Queues
    requires t in q.head && t in q.lo
  {
    q.(freed := q.freed + {q.head[t]}, head := q.head[t := n], lo := q.lo[t := q.lo[t] + 1])
  }

  predicate HasQueue(q: Queues, t: Tid) { t in q.head && t in q.lo && q.head[t] in q.next }

  /** A queue that holds one fresh node. */
  function NewQueue(q: Queues, t: Tid, n: Node): Queues {
    Queues(q.head[t := n], q.tail[t := n], q.next[n := None], q.freed, q.hist[t := [n]], q.lo[t := 0],
           q.home[n := t], q.pos[n := 0], q.holder[n := t])
  }

  /** The exchange of the tail of queue `to`. */
  function Append(q: Queues, p: Node, to: Tid): Queues
    requires to in q.hist
  {
    q.(tail := q.tail[to := p], hist := q.hist[to := q.hist[to] + [p]], home := q.home[p := to],
       pos := q.pos[p := |q.hist[to]|])
  }

  // ---- prepend_queue ------------------------------------------------------------------------------

  predicate CanProduce(s: State, a: Action) {
    match a
    case Push(t, p, b) => Runs(s, t) && s.threads[t].pc.Idle? && p !in s.q.holder && b in s.owner
    case ReadOwner(t) => Runs(s, t) && s.threads[t].pc.Read? && s.threads[t].pc.b in s.owner
    case SetHazard(t) => Runs(s, t) && s.threads[t].pc.Mark?
    case CheckOwner(t) => Runs(s, t) && s.threads[t].pc.Check? && s.threads[t].pc.b in s.owner
    case ClearNext(t) => Runs(s, t) && s.threads[t].pc.Clear?
    case SwapTail(t) => Runs(s, t) && s.threads[t].pc.Swap? && s.threads[t].pc.to in s.q.tail
      && s.threads[t].pc.to in s.q.hist
    case SetNext(t) => Runs(s, t) && s.threads[t].pc.Link?
    case ClearHazard(t) => Runs(s, t) && s.threads[t].pc.Unmark?
    case _ => false
  }

  /** The thread after its step. */
  function Moved(s: State, a: Action): Thread
    requires CanProduce(s, a)
  {
    var th := s.threads[a.t];
    match a
    case Push(t, p, b) => th.(pc := Read(p, b))
    case ReadOwner(t) => th.(pc := Mark(th.pc.p, th.pc.b, s.owner[th.pc.b]))
    case SetHazard(t) => th.(pc := Check(th.pc.p, th.pc.b, th.pc.seen), hazard := Some(th.pc.seen))
    case CheckOwner(t) =>
      if s.owner[th.pc.b] == th.pc.seen then th.(pc := Clear(th.pc.p, th.pc.seen))
      else th.(pc := Mark(th.pc.p, th.pc.b, s.owner[th.pc.b]))
    case ClearNext(t) => th.(pc := Swap(th.pc.p, th.pc.to))
    case SwapTail(t) => th.(pc := Link(th.pc.p, th.pc.to, s.q.tail[th.pc.to]))
    case SetNext(t) => th.(pc := Unmark(th.pc.to))
    case ClearHazard(t) => th.(pc := Idle, hazard := None)
  }

  /** The queues after the step. */
  function Written(s: State, a: Action): Queues
    requires CanProduce(s, a)
  {
    var pc := s.threads[a.t].pc;
    match a
    case Push(t, p, b) => s.q.(holder := s.q.holder[p := t])
    case ClearNext(t) => s.q.(next := s.q.next[pc.p := None])
    case SwapTail(t) => Append(s.q, pc.p, pc.to)
    case SetNext(t) => s.q.(next := s.q.next[pc.prev := Some(pc.p)])
    case _ => s.q
  }

  function Produce(s: State, a: Action): State
    requires CanProduce(s, a)
  {
    State(s.threads[a.t := Moved(s, a)], s.owner, s.hlock, s.hlist, Written(s, a))
  }

  // ---- reap_dead ----------------------------------------------------------------------------------

  predicate CanReap(s: State, a: Action) {
    match a
    case Choose(t, d) => Runs(s, t) && s.threads[t].reap.NotReaping? && d in s.threads && s.threads[d].life == Dead
    case LockList(t) => Runs(s, t) && s.threads[t].reap.Chosen? && s.hlock.None?
    case TakeBlock(t, b) => Runs(s, t) && s.threads[t].reap.Merging? && b in s.owner
      && s.owner[b] == s.threads[t].reap.d
    case StartScan(t) => Runs(s, t) && s.threads[t].reap.Merging? && s.threads[t].reap.d !in s.owner.Values
    case SeeClear(t, u) =>
      Runs(s, t) && s.threads[t].reap.Scanning? && u in s.threads && s.threads[u].hazard != Some(s.threads[t].reap.d)
    case EndScan(t) => Runs(s, t) && s.threads[t].reap.Scanning? && s.threads[t].reap.todo == {}
    case DrainHead(t) =>
      Runs(s, t) && s.threads[t].reap.Draining? && HasQueue(s.q, s.threads[t].reap.d)
        && s.q.next[s.q.head[s.threads[t].reap.d]].Some?
    case Finish(t) =>
      && Runs(s, t) && s.threads[t].reap.Draining? && HasQueue(s.q, s.threads[t].reap.d)
      && s.q.next[s.q.head[s.threads[t].reap.d]].None? && s.threads[t].reap.d in s.threads
    case _ => false
  }

  function WithReap(s: State, t: Tid, reap: Reap): map<Tid, Thread>
    requires t in s.threads
  {
    s.threads[t := s.threads[t].(reap := reap)]
  }

  function Collect(s: State, a: Action): State
    requires CanReap(s, a)
  {
    var r := s.threads[a.t].reap;
    match a
    case Choose(t, d) => s.(threads := WithReap(s, t, Chosen(d))[d := s.threads[d].(life := Taken)])
    case LockList(t) => State(WithReap(s, t, Merging(r.d)), s.owner, Some(t), s.hlist - {r.d}, s.q)
    case TakeBlock(t, b) => s.(owner := s.owner[b := t])
    case StartScan(t) => s.(threads := WithReap(s, t, Scanning(r.d, s.hlist)))
    case SeeClear(t, u) => s.(threads := WithReap(s, t, Scanning(r.d, r.todo - {u})))
    case EndScan(t) => State(WithReap(s, t, Draining(r.d)), s.owner, None, s.hlist, s.q)
    case DrainHead(t) => s.(q := Advance(s.q, r.d, s.q.next[s.q.head[r.d]].value))
    case Finish(t) =>
      State(WithReap(s, t, NotReaping)[r.d := s.threads[r.d].(life := Freed)], s.owner, s.hlock, s.hlist,
            Advance(s.q, r.d, s.q.head[r.d]))
  }

  // ---- the remaining steps ------------------------------------------------------------------------

  predicate CanLive(s: State, a: Action) {
    match a
    case Start(t, n) => t !in s.threads && n !in s.q.holder && s.hlock.None?
    case Own(t, b) => Runs(s, t) && b !in s.owner
    case FreeHead(t) => Runs(s, t) && HasQueue(s.q, t) && s.q.next[s.q.head[t]].Some?
    case Die(t) => Runs(s, t) && s.threads[t].pc.Idle? && s.threads[t].reap.NotReaping?
    case _ => false
  }

  function Live(s: State, a: Action): State
    requires CanLive(s, a)
  {
    match a
    case Start(t, n) =>
      State(s.threads[t := Thread(Running, Idle, None, NotReaping)], s.owner, s.hlock, s.hlist + {t},
            NewQueue(s.q, t, n))
    case Own(t, b) => s.(owner := s.owner[b := t])
    case FreeHead(t) => s.(q := Advance(s.q, t, s.q.next[s.q.head[t]].value))
    case Die(t) => s.(threads := s.threads[t := s.threads[t].(life := Dead)])
  }

  predicate Enabled(s: State, a: Action) { CanProduce(s, a) || CanReap(s, a) || CanLive(s, a) }

  function Step(s: State, a: Action): State
    requires Enabled(s, a)
  {
    if CanProduce(s, a) then Produce(s, a) else if CanReap(s, a) then Collect(s, a) else Live(s, a)
  }

  const INITIAL: State := State(map[], map[], None, {},
                                Queues(map[], map[], map[], {}, map[], map[], map[], map[], map[]))
}
