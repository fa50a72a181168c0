/** The call graph of the redirection pass (RedirectPtr/CallGraph.h): which threads run which function. */
module CallGraph {
  import opened Options

  type Edges = map<nat, seq<nat>>
  type Threads = map<nat, set<nat>>

  // ---- reachability through calls ------------------------------------------------------------------------

  predicate IsPath(callees: Edges, p: seq<nat>) {
    p != [] && (forall i :: 0 <= i < |p| ==> p[i] in callees) && forall i :: 0 < i < |p| ==> p[i] in callees[p[i - 1]]
  }

  /** `f` calls `h`, directly or through others, or is `h`. */
  ghost predicate Reaches(callees: Edges, f: nat, h: nat) {
    exists p :: IsPath(callees, p) && p[0] == f && p[|p| - 1] == h
  }

  lemma ReachesSelf(callees: Edges, f: nat)
    requires f in callees
    ensures Reaches(callees, f, f)
  {
    assert IsPath(callees, [f]);
  }

  lemma ReachesCaller(callees: Edges, g: nat, f: nat, h: nat)
    requires Reaches(callees, f, h) && g in callees && f in callees[g]
    ensures Reaches(callees, g, h)
  {
    var p :| IsPath(callees, p) && p[0] == f && p[|p| - 1] == h;
    var q := [g] + p;
    assert forall i :: 1 <= i < |q| ==> q[i] == p[i - 1];
    assert IsPath(callees, q) && q[0] == g && q[|q| - 1] == h;
  }

  /** Callers and callees describe the same edges between functions of the graph. */
  ghost predicate Mirrored(callees: Edges, callers: Edges) {
    callees.Keys == callers.Keys && forall f, g {:trigger EdgeOk(callees, callers, f, g)} ::
      EdgeOk(callees, callers, f, g)
  }

  predicate EdgeOk(callees: Edges, callers: Edges, f: nat, g: nat) {
    (f in callees && g in callees[f]) <==> (g in callers && f in callers[g])
  }

  ghost predicate UpClosed(callers: Edges, vs: set<nat>) {
    forall v, g :: v in vs && v in callers && g in callers[v] ==> g in vs
  }

  /** Whoever reaches a member of a set that is closed under callers is a member. */
  lemma {:induction false} ClosedReaches(callees: Edges, callers: Edges, vs: set<nat>, p: seq<nat>)
    requires Mirrored(callees, callers) && UpClosed(callers, vs) && IsPath(callees, p) && p[|p| - 1] in vs
    ensures p[0] in vs
    decreases |p|
  {
    if |p| > 1 {
      var q := p[..|p| - 1];
      assert p[|p| - 1] in callees[p[|p| - 2]] && EdgeOk(callees, callers, p[|p| - 2], p[|p| - 1]);
      assert IsPath(callees, q);
      ClosedReaches(callees, callers, vs, q);
    }
  }

  // ---- hints and their closure ---------------------------------------------------------------------------

  /** The hints that counted: the function and its threads. */
  datatype Hint = Hint(func: nat, threads: set<nat>)

  /** Thread `t` was hinted for a function that `f` reaches. */
  ghost predicate Hinted(callees: Edges, hints: seq<Hint>, f: nat, t: nat) {
    exists i :: 0 <= i < |hints| && Reaches(callees, f, hints[i].func) && t in hints[i].threads
  }

  /** No function has a thread that no hint accounts for. */
  ghost predicate Sound(callees: Edges, hints: seq<Hint>, threads: Threads) {
    forall f, t {:trigger Hinted(callees, hints, f, t)} :: f in threads && t in threads[f] ==>
      Hinted(callees, hints, f, t)
  }

  ghost predicate Grown(a: Threads, b: Threads) { a.Keys == b.Keys && forall f :: f in a ==> a[f] <= b[f] }

  lemma MergeSound(callees: Edges, hints: seq<Hint>, threads: Threads, g: nat, f: nat)
    requires Sound(callees, hints, threads) && g in threads && f in threads && g in callees && f in callees[g]
    ensures Sound(callees, hints, threads[g := threads[g] + threads[f]])
  {
    var threads' := threads[g := threads[g] + threads[f]];
    forall x, t | x in threads' && t in threads'[x] ensures Hinted(callees, hints, x, t) {
      assert t in threads[x] ==> Hinted(callees, hints, x, t);
      if x == g && t !in threads[g] {
        assert Hinted(callees, hints, f, t);
        var i :| 0 <= i < |hints| && Reaches(callees, f, hints[i].func) && t in hints[i].threads;
        ReachesCaller(callees, g, f, hints[i].func);
      }
    }
  }

  /** A new hint for `f`. */
  lemma HintSound(callees: Edges, hints: seq<Hint>, threads: Threads, f: nat, ts: set<nat>)
    requires Sound(callees, hints, threads) && f in threads && f in callees
    ensures Sound(callees, hints + [Hint(f, ts)], threads[f := threads[f] + ts])
  {
    var hints', threads' := hints + [Hint(f, ts)], threads[f := threads[f] + ts];
    forall x, t | x in threads' && t in threads'[x] ensures Hinted(callees, hints', x, t) {
      if x in threads && t in threads[x] {
        assert Hinted(callees, hints, x, t);
        var i :| 0 <= i < |hints| && Reaches(callees, x, hints[i].func) && t in hints[i].threads;
        assert hints'[i] == hints[i];
      } else {
        ReachesSelf(callees, f);
        assert hints'[|hints|] == Hint(f, ts);
      }
    }
  }

  /** Everything visited has been dealt with: its callers are visited and have the threads `ts`. */
  ghost predicate Spread(callers: Edges, threads: Threads, before: set<nat>, visited: set<nat>, ts: set<nat>) {
    forall v :: v in visited && v !in before ==> Served(callers, threads, visited, ts, v)
  }

  ghost predicate Served(callers: Edges, threads: Threads, visited: set<nat>, ts: set<nat>, v: nat) {
    && v in threads && ts <= threads[v] && v in callers
    && forall g :: g in callers[v] ==> g in visited && g in threads && ts <= threads[g]
  }

  /** The first `i` callers of `node` have been dealt with, and so has everything visited on the way. */
  ghost predicate Progress(callers: Edges, threads: Threads, before: set<nat>, node: nat, visited: set<nat>,
                           ts: set<nat>, edges: seq<nat>, i: nat)
    requires i <= |edges|
  {
    && Spread(callers, threads, before + {node}, visited, ts)
    && (forall j :: 0 <= j < i ==> edges[j] in visited && edges[j] in threads && ts <= threads[edges[j]])
  }

  lemma Advance(callers: Edges, a: Threads, b: Threads, before: set<nat>, node: nat, v1: set<nat>, v2: set<nat>,
                ts: set<nat>, edges: seq<nat>, i: nat)
    requires i < |edges| && Progress(callers, a, before, node, v1, ts, edges, i) && Grown(a, b)
    requires v1 <= v2 && edges[i] in v2 && edges[i] in b && ts <= b[edges[i]] && Spread(callers, b, v1, v2, ts)
    ensures Progress(callers, b, before, node, v2, ts, edges, i + 1)
  {}

  // ---- building the graph ----------------------------------------------------------------------------------

  /** The functions defined in the module and the functions they call. */
  type Calls = map<nat, set<nat>>

  /** Every call of `f` to a defined function is an edge, and nothing else is. */
  ghost predicate Complete(calls: Calls, callees: Edges, f: nat) {
    f in callees && f in calls && forall g ::
      (g in callees[f] <==> g in calls[f] && g in calls) && (g in callees[f] ==> g in callees)
  }

  lemma MirrorAdd(callees: Edges, callers: Edges, f: nat, g: nat)
    requires Mirrored(callees, callers) && f in callees && g in callees
    ensures Mirrored(callees[f := callees[f] + [g]], callers[g := callers[g] + [f]])
  {
    var callees', callers' := callees[f := callees[f] + [g]], callers[g := callers[g] + [f]];
    forall x, y ensures EdgeOk(callees', callers', x, y) { assert EdgeOk(callees, callers, x, y); }
  }

  lemma MirrorNew(callees: Edges, callers: Edges, f: nat)
    requires Mirrored(callees, callers) && f !in callees
    ensures Mirrored(callees[f := []], callers[f := []])
  {
    var callees', callers' := callees[f := []], callers[f := []];
    forall x, y ensures EdgeOk(callees', callers', x, y) { assert EdgeOk(callees, callers, x, y); }
  }

  /** The old functions keep their edges, except that `to` gets one more, and their threads. */
  ghost predicate Extends(calls: Calls, c0: Edges, t0: Threads, c1: Edges, t1: Threads) {
    && c0.Keys <= c1.Keys && t0.Keys == c0.Keys && t1.Keys == c1.Keys
    && (forall g :: g in c1 && g !in c0 ==> Complete(calls, c1, g) && t1[g] == {})
    && (forall g :: g in c0 ==> t1[g] == t0[g])
  }

  ghost predicate SameBut(c0: Edges, c1: Edges, f: nat) { forall g :: g in c0 && g in c1 && g != f ==> c1[g] == c0[g] }

  lemma EdgeExtends(calls: Calls, c0: Edges, t0: Threads, c1: Edges, t1: Threads, p: nat, f: nat)
    requires Extends(calls, c0, t0, c1, t1) && p in c0 && f in c1
    ensures Extends(calls, c0, t0, c1[p := c1[p] + [f]], t1)
  {}

  /** Function `f` is new and its calls are being followed; `todo` are left. */
  ghost predicate Filling(calls: Calls, c0: Edges, t0: Threads, c1: Edges, t1: Threads, f: nat, todo: set<nat>) {
    && f in calls && f !in c0 && f in c1 && c0.Keys <= c1.Keys && t0.Keys == c0.Keys && t1.Keys == c1.Keys
    && (forall g :: (g in c1[f] <==> g in calls[f] && g in calls && g !in todo) && (g in c1[f] ==> g in c1))
    && (forall g :: g in c1 && g !in c0 ==> (g != f ==> Complete(calls, c1, g)) && t1[g] == {})
    && (forall g :: g in c0 ==> t1[g] == t0[g] && c1[g] == c0[g])
  }

  lemma FillNext(calls: Calls, c0: Edges, t0: Threads, c1: Edges, t1: Threads, c2: Edges, t2: Threads, f: nat,
                 todo: set<nat>, g: nat)
    requires Filling(calls, c0, t0, c1, t1, f, todo) && g in todo && todo <= calls[f]
    requires Extends(calls, c1, t1, c2, t2) && SameBut(c1, c2, f) && c2[f] == c1[f] + (if g in calls then [g] else [])
    requires g in calls ==> g in c2
    ensures Filling(calls, c0, t0, c2, t2, f, todo - {g})
  {
    forall x | x in c2 && x !in c0 && x != f ensures Complete(calls, c2, x) {
      if x in c1 { assert Complete(calls, c1, x); }
    }
  }

  lemma FilledExtends(calls: Calls, c0: Edges, t0: Threads, c1: Edges, t1: Threads, f: nat)
    requires Filling(calls, c0, t0, c1, t1, f, {})
    ensures Extends(calls, c0, t0, c1, t1) && SameBut(c0, c1, f)
  {}

  class Graph {
    const calls: Calls
    var callees: Edges
    var callers: Edges
    var threads: Threads
    var hinted: seq<nat>
    ghost var hints: seq<Hint>

    ghost predicate Shape()
      reads this
    {
      Mirrored(callees, callers) && threads.Keys == callees.Keys && callees.Keys <= calls.Keys
    }

    ghost predicate HintsOk()
      reads this
    {
      && Sound(callees, hints, threads) && |hints| == |hinted|
      && (forall i :: 0 <= i < |hints| ==>
          hints[i].func == hinted[i] && hinted[i] in threads && hints[i].threads <= threads[hinted[i]])
    }

    ghost predicate Valid()
      reads this
    {
      Shape() && (forall f :: f in callees ==> Complete(calls, callees, f)) && HintsOk()
    }

    constructor (calls: Calls)
      ensures Valid() && callees == map[] && hints == [] && this.calls == calls
    {
      this.calls := calls;
      callees, callers, threads, hinted, hints := map[], map[], map[], [], [];
    }

    /** `hintFuncThreads`: functions outside the graph are ignored. */
    method HintThreads(f: nat, ts: set<nat>)
      requires Valid()
      modifies this`threads, this`hinted, this`hints
      ensures Valid()
      ensures hints == if f in callees then old(hints) + [Hint(f, ts)] else old(hints)
    {
      if f in threads {
        HintSound(callees, hints, threads, f, ts);
        threads := threads[f := threads[f] + ts];
        hinted := hinted + [f];
        hints := hints + [Hint(f, ts)];
      }
    }

    /** `mergeThreadInfo` along one edge. */
    method Merge(next: nat, node: nat)
      requires Shape() && Sound(callees, hints, threads) && node in callers && next in callers[node]
      modifies this`threads
      ensures Shape() && Sound(callees, hints, threads) && Grown(old(threads), threads)
      ensures next in threads && old(threads)[node] <= threads[next]
    {
      assert EdgeOk(callees, callers, next, node);
      MergeSound(callees, hints, threads, next, node);
      threads := threads[next := threads[next] + threads[node]];
    }

    /** `DFSNode::goNext` towards the callers. */
    method GoNext(node: nat, visited: set<nat>, ghost ts: set<nat>) returns (visited': set<nat>)
      requires Shape() && Sound(callees, hints, threads) && node in threads && ts <= threads[node]
      modifies this`threads
      ensures Shape() && Sound(callees, hints, threads) && Grown(old(threads), threads)
      ensures visited + {node} <= visited' && visited' <= visited + callees.Keys
      ensures Spread(callers, threads, visited, visited', ts)
      decreases callees.Keys - visited
    {
      visited' := visited;
      if node in visited { return; }
      visited' := visited + {node};
      var edges := callers[node];
      for i := 0 to |edges|
        invariant Shape() && Sound(callees, hints, threads) && Grown(old(threads), threads)
        invariant visited + {node} <= visited' && visited' <= visited + callees.Keys
        invariant Progress(callers, threads, visited, node, visited', ts, edges, i)
      {
        ghost var before, seen := threads, visited';
        Merge(edges[i], node);
        visited' := GoNext(edges[i], visited', ts);
        Advance(callers, before, threads, visited, node, seen, visited', ts, edges, i);
      }
    }

    /** `addCallee`. */
    method AddEdge(f: nat, g: nat)
      requires Shape() && f in callees && g in callees
      modifies this`callees, this`callers
      ensures Shape() && callees == old(callees)[f := old(callees)[f] + [g]]
    {
      MirrorAdd(callees, callers, f, g);
      callees := callees[f := callees[f] + [g]];
      callers := callers[g := callers[g] + [f]];
    }

    /** `addFunc`: declarations are skipped; a new function is entered before its calls are followed. */
    method AddFunc(f: nat, parent: Option<nat>)
      requires Shape() && (parent.Some? ==> parent.value in callees)
      modifies this`callees, this`callers, this`threads
      ensures Shape() && Extends(calls, old(callees), old(threads), callees, threads) && (f in calls ==> f in callees)
      ensures parent.None? ==> forall g :: g in old(callees) ==> callees[g] == old(callees)[g]
      ensures parent.Some? ==> SameBut(old(callees), callees, parent.value)
                               && callees[parent.value] == old(callees)[parent.value] + if f in calls then [f] else []
      decreases calls.Keys - callees.Keys, 1
    {
      if f !in calls { return; }
      if f !in callees { NewFunc(f); }
      if parent.Some? {
        EdgeExtends(calls, old(callees), old(threads), callees, threads, parent.value, f);
        AddEdge(parent.value, f);
      }
    }

    method NewFunc(f: nat)
      requires Shape() && f in calls && f !in callees
      modifies this`callees, this`callers, this`threads
      ensures Shape() && Extends(calls, old(callees), old(threads), callees, threads) && f in callees
      ensures forall g :: g in old(callees) ==> callees[g] == old(callees)[g]
      decreases calls.Keys - callees.Keys, 0
    {
      MirrorNew(callees, callers, f);
      callees, callers, threads := callees[f := []], callers[f := []], threads[f := {}];
      var todo := calls[f];
      while todo != {}
        invariant todo <= calls[f] && Shape() && Filling(calls, old(callees), old(threads), callees, threads, f, todo)
        decreases |todo|
      {
        var g :| g in todo;
        ghost var c1, t1 := callees, threads;
        AddFunc(g, Some(f));
        FillNext(calls, old(callees), old(threads), c1, t1, callees, threads, f, todo, g);
        todo := todo - {g};
      }
      FilledExtends(calls, old(callees), old(threads), callees, threads, f);
    }

    /** `addStartFunc`: the graph is again complete, and no old edge or thread has changed. */
    method AddStartFunc(f: nat)
      requires Valid()
      modifies this`callees, this`callers, this`threads
      ensures Valid() && (f in calls ==> f in callees) && Extends(calls, old(callees), old(threads), callees, threads)
      ensures forall g :: g in old(callees) ==> callees[g] == old(callees)[g]
    {
      AddFunc(f, None);
      ExtendSound(calls, old(callees), old(threads), callees, threads, hints);
      forall g | g in callees ensures Complete(calls, callees, g) {
        if g in old(callees) { assert Complete(calls, old(callees), g); }
      }
    }

    /** The first half of `propagateFuncThreads`: one search from every hinted function. */
    method Propagate()
      requires Valid()
      modifies this`threads
      ensures Valid() && Exact(callees, hints, threads)
    {
      for i := 0 to |hinted|
        invariant Valid() && forall j :: 0 <= j < i ==> Delivered(callees, hints[j], threads)
      {
        ghost var before := threads;
        ghost var ts := threads[hinted[i]];
        var visited := GoNext(hinted[i], {}, ts);
        SpreadDelivers(callees, callers, threads, visited, hinted[i], ts, hints[i]);
        forall j | 0 <= j < i ensures Delivered(callees, hints[j], threads) {
          DeliveredGrows(callees, hints[j], before, threads);
        }
      }
      DeliveredExact(callees, hints, threads);
    }

    /** The second half: functions without threads are dropped, from the graph and from all edges. */
    method Cleanup()
      requires Shape()
      modifies this`callees, this`callers, this`threads
      ensures Shape() && Pruned(old(callees), old(threads), callees, threads)
    {
      var keep := set f | f in threads && threads[f] != {};
      FilterMirrored(callees, callers, keep);
      FilterPruned(callees, threads, keep);
      callees, callers, threads := FilterAll(callees, keep), FilterAll(callers, keep), Restrict(threads, keep);
    }

    /** `propagateFuncThreads`: the survivors are the functions that reach a hinted one, each with exactly
        the threads hinted for the functions it reaches; no edge leads outside. */
    method PropagateThreads()
      requires Valid()
      modifies this`callees, this`callers, this`threads
      ensures Shape() && Closure(old(callees), hints, callees, threads)
    {
      Propagate();
      PrunedClosure(callees, hints, threads);
      Cleanup();
    }
  }

  // ---- what the searches achieve --------------------------------------------------------------------------------

  ghost predicate Exact(callees: Edges, hints: seq<Hint>, threads: Threads) {
    forall f, t {:trigger Hinted(callees, hints, f, t)} :: f in threads ==>
      (t in threads[f] <==> Hinted(callees, hints, f, t))
  }

  /** Every function that reaches the hinted one has its threads. */
  ghost predicate Delivered(callees: Edges, hint: Hint, threads: Threads) {
    forall f {:trigger Reaches(callees, f, hint.func)} :: f in threads && Reaches(callees, f, hint.func) ==>
      hint.threads <= threads[f]
  }

  lemma DeliveredGrows(callees: Edges, hint: Hint, a: Threads, b: Threads)
    requires Delivered(callees, hint, a) && Grown(a, b)
    ensures Delivered(callees, hint, b)
  {}

  lemma SpreadDelivers(callees: Edges, callers: Edges, threads: Threads, visited: set<nat>, h: nat, ts: set<nat>,
                       hint: Hint)
    requires Mirrored(callees, callers) && Spread(callers, threads, {}, visited, ts) && h in visited && hint.func == h
    requires hint.threads <= ts
    ensures Delivered(callees, hint, threads)
  {
    forall v, g | v in visited && v in callers && g in callers[v] ensures g in visited {
      assert Served(callers, threads, visited, ts, v);
    }
    forall f | f in threads && Reaches(callees, f, h) ensures hint.threads <= threads[f] {
      var p :| IsPath(callees, p) && p[0] == f && p[|p| - 1] == h;
      ClosedReaches(callees, callers, visited, p);
      assert Served(callers, threads, visited, ts, f);
    }
  }

  lemma DeliveredExact(callees: Edges, hints: seq<Hint>, threads: Threads)
    requires Sound(callees, hints, threads) && forall i :: 0 <= i < |hints| ==> Delivered(callees, hints[i], threads)
    ensures Exact(callees, hints, threads)
  {}

  lemma ReachesGrows(c0: Edges, c1: Edges, f: nat, h: nat)
    requires Reaches(c0, f, h) && forall g :: g in c0 ==> g in c1 && c1[g] == c0[g]
    ensures Reaches(c1, f, h)
  {}

  lemma ExtendSound(calls: Calls, c0: Edges, t0: Threads, c1: Edges, t1: Threads, hints: seq<Hint>)
    requires Sound(c0, hints, t0) && Extends(calls, c0, t0, c1, t1) && forall g :: g in c0 ==> c1[g] == c0[g]
    ensures Sound(c1, hints, t1)
  {
    forall f, t | f in t1 && t in t1[f] ensures Hinted(c1, hints, f, t) {
      assert f in c0 && Hinted(c0, hints, f, t);
      var i :| 0 <= i < |hints| && Reaches(c0, f, hints[i].func) && t in hints[i].threads;
      ReachesGrows(c0, c1, f, hints[i].func);
    }
  }

  // ---- removing functions ---------------------------------------------------------------------------------------

  /** `remove_if` on a vector of nodes. */
  function Filter(s: seq<nat>, keep: set<nat>): seq<nat> {
    if s == [] then [] else (if s[0] in keep then [s[0]] else []) + Filter(s[1..], keep)
  }

  function FilterAll(edges: Edges, keep: set<nat>): (r: Edges)
    requires keep <= edges.Keys
    ensures r.Keys == keep
  {
    map f | f in keep :: Filter(edges[f], keep)
  }

  function Restrict(threads: Threads, keep: set<nat>): (r: Threads)
    requires keep <= threads.Keys
    ensures r.Keys == keep && forall f :: f in keep ==> r[f] == threads[f]
  {
    map f | f in keep :: threads[f]
  }

  lemma {:induction false} FilterMembers(s: seq<nat>, keep: set<nat>, x: nat)
    ensures x in Filter(s, keep) <==> x in s && x in keep
  {
    if s != [] {
      FilterMembers(s[1..], keep, x);
      assert s == [s[0]] + s[1..];
    }
  }

  /** Exactly the functions with threads are left, with the edges between them. */
  ghost predicate Pruned(c0: Edges, t0: Threads, c1: Edges, t1: Threads)
    requires t0.Keys == c0.Keys
  {
    && c1.Keys == t1.Keys
    && (forall f :: f in t1 <==> f in t0 && t0[f] != {}) && (forall f :: f in t1 ==> t1[f] == t0[f])
    && (forall f, g {:trigger EdgeKept(c0, c1, f, g)} :: EdgeKept(c0, c1, f, g))
  }

  /** Edges between remaining functions stay, all others go. */
  predicate EdgeKept(c0: Edges, c1: Edges, f: nat, g: nat) {
    f in c1 ==> f in c0 && (g in c1[f] <==> g in c0[f] && g in c1)
  }

  lemma FilterPruned(callees: Edges, threads: Threads, keep: set<nat>)
    requires threads.Keys == callees.Keys && keep == (set f | f in threads && threads[f] != {})
    ensures Pruned(callees, threads, FilterAll(callees, keep), Restrict(threads, keep))
  {
    var c1 := FilterAll(callees, keep);
    forall f, g ensures EdgeKept(callees, c1, f, g) { if f in c1 { FilterMembers(callees[f], keep, g); } }
  }

  ghost predicate Survives(callees: Edges, hints: seq<Hint>, f: nat) {
    f in callees && exists t :: Hinted(callees, hints, f, t)
  }

  /** The result in terms of the calls and the hints alone. */
  ghost predicate Closure(c0: Edges, hints: seq<Hint>, c1: Edges, t1: Threads) {
    && c1.Keys == t1.Keys
    && (forall f {:trigger Survives(c0, hints, f)} :: f in t1 <==> Survives(c0, hints, f))
    && (forall f, t {:trigger Hinted(c0, hints, f, t)} :: f in t1 ==> (t in t1[f] <==> Hinted(c0, hints, f, t)))
    && (forall f, g {:trigger EdgeKept(c0, c1, f, g)} :: EdgeKept(c0, c1, f, g))
  }

  lemma PrunedClosure(c0: Edges, hints: seq<Hint>, t0: Threads)
    requires t0.Keys == c0.Keys && Exact(c0, hints, t0)
    ensures forall c1, t1 :: Pruned(c0, t0, c1, t1) ==> Closure(c0, hints, c1, t1)
  {
    forall c1: Edges, t1: Threads | Pruned(c0, t0, c1, t1) ensures Closure(c0, hints, c1, t1) {
      forall f ensures f in t1 <==> Survives(c0, hints, f) {
        if f in t1 {
          var t :| t in t0[f];
          assert Hinted(c0, hints, f, t);
        }
        if Survives(c0, hints, f) {
          var t :| Hinted(c0, hints, f, t);
          assert t in t0[f];
        }
      }
    }
  }

  lemma FilterMirrored(callees: Edges, callers: Edges, keep: set<nat>)
    requires Mirrored(callees, callers) && keep <= callees.Keys
    ensures Mirrored(FilterAll(callees, keep), FilterAll(callers, keep))
  {
    var callees', callers' := FilterAll(callees, keep), FilterAll(callers, keep);
    forall f, g ensures EdgeOk(callees', callers', f, g) {
      assert EdgeOk(callees, callers, f, g);
      if f in keep { FilterMembers(callees[f], keep, g); }
      if g in keep { FilterMembers(callers[g], keep, f); }
    }
  }

  /** Threads flow from callees to callers, so a function that survives keeps all its callers. */
  lemma CallersSurvive(callees: Edges, hints: seq<Hint>, threads: Threads, g: nat, f: nat)
    requires Exact(callees, hints, threads) && f in threads && g in threads && g in callees && f in callees[g]
    ensures threads[f] <= threads[g]
  {
    forall t | t in threads[f] ensures t in threads[g] {
      assert Hinted(callees, hints, f, t);
      var i :| 0 <= i < |hints| && Reaches(callees, f, hints[i].func) && t in hints[i].threads;
      ReachesCaller(callees, g, f, hints[i].func);
      assert Hinted(callees, hints, g, t);
    }
  }
}
