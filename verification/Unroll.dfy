/** `CustomUnrollLoop` (RedirectPtr/CustomUnrollLoop.cpp): the body is cloned with a running map from
    values to their newest clones, the header phis are removed or re-targeted. */
module Unroll {
  import opened LoopIR

  /** What `LastValueMap` makes of `v` once copy `it` exists: a body value becomes its clone, a phi
      becomes what the previous copy passes to it. */
  function Latest(l: Loop, it: nat, v: Value): Value {
    if it == 0 || v.Outside? then v
    else if v.id < |l.phis| then Latest(l, it - 1, l.phis[v.id].next)
    else Local(v.id, it)
  }

  function LatestAll(l: Loop, it: nat, vs: seq<Value>): (r: seq<Value>)
    ensures |r| == |vs| && forall i :: 0 <= i < |vs| ==> r[i] == Latest(l, it, vs[i])
  {
    seq(|vs|, i requires 0 <= i < |vs| => Latest(l, it, vs[i]))
  }

  function Copy(l: Loop, it: nat): (r: seq<Instr>)
    ensures |r| == |l.body|
    ensures forall i :: 0 <= i < |r| ==>
              r[i] == Instr(Local(|l.phis| + i, it), l.body[i].op, LatestAll(l, it, l.body[i].args))
  {
    seq(|l.body|,
        i requires 0 <= i < |l.body| => Instr(Local(|l.phis| + i, it), l.body[i].op, LatestAll(l, it, l.body[i].args)))
  }

  /** The first `n` phis replaced by their values from the preheader. */
  function Sub(phis: seq<Phi>, n: nat, v: Value): Value
    requires n <= |phis|
  {
    if v.Local? && v.copy == 0 && v.id < n then phis[v.id].init else v
  }

  function SubAll(phis: seq<Phi>, n: nat, vs: seq<Value>): (r: seq<Value>)
    requires n <= |phis|
    ensures |r| == |vs| && forall i :: 0 <= i < |vs| ==> r[i] == Sub(phis, n, vs[i])
  {
    seq(|vs|, i requires 0 <= i < |vs| => Sub(phis, n, vs[i]))
  }

  function SubCode(phis: seq<Phi>, n: nat, code: seq<Instr>): (r: seq<Instr>)
    requires n <= |phis|
    ensures |r| == |code| && forall i :: 0 <= i < |r| ==> r[i] == code[i].(args := SubAll(phis, n, code[i].args))
  {
    seq(|code|, i requires 0 <= i < |code| => code[i].(args := SubAll(phis, n, code[i].args)))
  }

  /** How many phis a complete or partial unrolling replaces. */
  function Gone(l: Loop, complete: bool): (n: nat)
    ensures n <= |l.phis|
  {
    if complete then |l.phis| else 0
  }

  /** `u` is the unrolled loop: `count` renamed copies, and phis that are gone or fed by the last copy. */
  ghost predicate IsUnrolled(l: Loop, count: nat, complete: bool, u: Program) {
    var n := Gone(l, complete);
    && count > 0 && |u.copies| == |u.conds| == |u.exits| == count
    && (forall c :: 0 <= c < count ==> u.copies[c] == SubCode(l.phis, n, Copy(l, c)))
    && (forall c :: 0 <= c < count ==> u.conds[c] == Sub(l.phis, n, Latest(l, c, l.cond)))
    && (forall c :: 0 <= c < count ==> u.exits[c] == SubAll(l.phis, n, LatestAll(l, c, l.exits)))
    && (if complete then u.phis == []
        else |u.phis| == |l.phis|
             && forall i :: 0 <= i < |l.phis| ==>
                  u.phis[i] == Phi(l.phis[i].init, Latest(l, count - 1, l.phis[i].next)))
  }

  // ---- the running map --------------------------------------------------------------------------------

  /** `last` is `LastValueMap` when copies `0` to `it` exist; no entry means the value itself. */
  ghost predicate MapsTo(l: Loop, it: nat, last: map<nat, Value>) {
    if it == 0 then last == map[]
    else forall id :: 0 <= id < |l.phis| + |l.body| ==> id in last && last[id] == Latest(l, it, Local(id, 0))
  }

  function Mapped(last: map<nat, Value>, v: Value): Value {
    if v.Local? && v.copy == 0 && v.id in last then last[v.id] else v
  }

  lemma MappedLatest(l: Loop, it: nat, last: map<nat, Value>, v: Value)
    requires MapsTo(l, it, last) && Known(l, |l.body|, v)
    ensures Mapped(last, v) == Latest(l, it, v)
  {}

  method Remap(l: Loop, it: nat, last: map<nat, Value>, vs: seq<Value>) returns (r: seq<Value>)
    requires MapsTo(l, it, last) && AllKnown(l, |l.body|, vs)
    ensures r == LatestAll(l, it, vs)
  {
    r := [];
    for i := 0 to |vs|
      invariant |r| == i && forall j :: 0 <= j < i ==> r[j] == Latest(l, it, vs[j])
    {
      MappedLatest(l, it, last, vs[i]);
      r := r + [Mapped(last, vs[i])];
    }
  }

  /** What phi `i` receives in copy `it`; the first clone reads the values of the original body. */
  method Incoming(l: Loop, it: nat, last: map<nat, Value>, i: nat) returns (inVal: Value)
    requires InSsa(l) && it > 0 && MapsTo(l, it - 1, last) && i < |l.phis|
    ensures inVal == Latest(l, it, Local(i, 0))
  {
    inVal := l.phis[i].next;
    MappedLatest(l, it - 1, last, inVal);
    if inVal.Local? && it > 1 { inVal := last[inVal.id]; }
  }

  /** The clone of the header: its phis become the values arriving from the previous copy. All of them
      are looked up before the running map changes. */
  method CloneMap(l: Loop, it: nat, last: map<nat, Value>) returns (vmap: map<nat, Value>)
    requires InSsa(l) && it > 0 && MapsTo(l, it - 1, last)
    ensures MapsTo(l, it, vmap)
    ensures forall id :: |l.phis| <= id < |l.phis| + |l.body| ==> vmap[id] == Local(id, it)
  {
    vmap := map id | 0 <= id < |l.phis| + |l.body| :: Local(id, it);
    for i := 0 to |l.phis|
      invariant forall id :: 0 <= id < |l.phis| + |l.body| ==> id in vmap
      invariant forall id :: 0 <= id < i ==> vmap[id] == Latest(l, it, Local(id, 0))
      invariant forall id :: i <= id < |l.phis| + |l.body| ==> vmap[id] == Local(id, it)
    {
      var inVal := Incoming(l, it, last, i);
      vmap := vmap[i := inVal];
    }
  }

  method CloneBody(l: Loop, it: nat, last: map<nat, Value>) returns (code: seq<Instr>)
    requires InSsa(l) && MapsTo(l, it, last)
    ensures code == Copy(l, it)
  {
    code := [];
    for i := 0 to |l.body|
      invariant |code| == i && forall j :: 0 <= j < i ==> code[j] == Copy(l, it)[j]
    {
      var args := Remap(l, it, last, l.body[i].args);
      code := code + [Instr(Local(|l.phis| + i, it), l.body[i].op, args)];
    }
  }

  lemma CopyZero(l: Loop)
    requires InSsa(l)
    ensures Copy(l, 0) == l.body && LatestAll(l, 0, l.exits) == l.exits
  {
    forall i | 0 <= i < |l.body| ensures Copy(l, 0)[i] == l.body[i] {
      assert LatestAll(l, 0, l.body[i].args) == l.body[i].args;
    }
  }

  ghost predicate Cloned(l: Loop, count: nat, copies: seq<seq<Instr>>, conds: seq<Value>, exits: seq<seq<Value>>) {
    && |copies| == |conds| == |exits| == count
    && (forall c :: 0 <= c < count ==> copies[c] == Copy(l, c))
    && (forall c :: 0 <= c < count ==> conds[c] == Latest(l, c, l.cond))
    && (forall c :: 0 <= c < count ==> exits[c] == LatestAll(l, c, l.exits))
  }

  /** `hooks` lists the first `n` clones of every hooked instruction, in order. */
  ghost predicate Reported(hooked: set<nat>, n: nat, hooks: map<nat, seq<Value>>) {
    hooks.Keys == hooked && forall h :: h in hooked ==> ClonesOf(h, n, hooks[h])
  }

  ghost predicate ClonesOf(h: nat, n: nat, vs: seq<Value>) {
    |vs| == n && forall k :: 0 <= k < n ==> vs[k] == Local(h, k + 1)
  }

  method Report(hooked: set<nat>, it: nat, hooks: map<nat, seq<Value>>, vmap: map<nat, Value>)
    returns (r: map<nat, seq<Value>>)
    requires it > 0 && Reported(hooked, it - 1, hooks)
    requires forall h :: h in hooked ==> h in vmap && vmap[h] == Local(h, it)
    ensures Reported(hooked, it, r)
  {
    r := map h | h in hooked :: hooks[h] + [vmap[h]];
    forall h | h in hooked ensures ClonesOf(h, it, r[h]) { assert ClonesOf(h, it - 1, hooks[h]); }
  }

  /** One round of the cloning loop. */
  method CloneOnce(l: Loop, it: nat, last: map<nat, Value>, hooked: set<nat>, hooks: map<nat, seq<Value>>)
    returns (code: seq<Instr>, cond: Value, exit: seq<Value>, last': map<nat, Value>, hooks': map<nat, seq<Value>>)
    requires InSsa(l) && it > 0 && MapsTo(l, it - 1, last) && Reported(hooked, it - 1, hooks)
    requires forall h :: h in hooked ==> |l.phis| <= h < |l.phis| + |l.body|
    ensures code == Copy(l, it) && cond == Latest(l, it, l.cond) && exit == LatestAll(l, it, l.exits)
    ensures MapsTo(l, it, last') && Reported(hooked, it, hooks')
  {
    var vmap := CloneMap(l, it, last);
    last' := last + vmap;
    exit := Remap(l, it, last', l.exits);
    hooks' := Report(hooked, it, hooks, vmap);
    code := CloneBody(l, it, last');
    MappedLatest(l, it, last', l.cond);
    cond := Mapped(last', l.cond);
  }

  /** The cloning loop: `count - 1` clones beside the original. */
  method Clone(l: Loop, count: nat, hooked: set<nat>)
    returns (copies: seq<seq<Instr>>, conds: seq<Value>, exits: seq<seq<Value>>, last: map<nat, Value>,
             hooks: map<nat, seq<Value>>)
    requires InSsa(l) && count > 0
    requires forall h :: h in hooked ==> |l.phis| <= h < |l.phis| + |l.body|
    ensures Cloned(l, count, copies, conds, exits) && MapsTo(l, count - 1, last) && Reported(hooked, count - 1, hooks)
  {
    copies, conds, exits, last := [l.body], [l.cond], [l.exits], map[];
    hooks := map h | h in hooked :: [];
    CopyZero(l);
    var it := 1;
    while it != count
      invariant 1 <= it <= count
      invariant Cloned(l, it, copies, conds, exits) && MapsTo(l, it - 1, last) && Reported(hooked, it - 1, hooks)
      decreases count - it
    {
      var code, cond, exit;
      code, cond, exit, last, hooks := CloneOnce(l, it, last, hooked, hooks);
      copies, conds, exits := copies + [code], conds + [cond], exits + [exit];
      it := it + 1;
    }
  }

  // ---- the phis of the original header ---------------------------------------------------------------------

  function Replaced(n: nat, w: Value, v: Value): Value { if v == Local(n, 0) then w else v }

  function ReplacedAll(n: nat, w: Value, vs: seq<Value>): (r: seq<Value>)
    ensures |r| == |vs| && forall i :: 0 <= i < |vs| ==> r[i] == Replaced(n, w, vs[i])
  {
    seq(|vs|, i requires 0 <= i < |vs| => Replaced(n, w, vs[i]))
  }

  function ReplacedCode(n: nat, w: Value, code: seq<Instr>): (r: seq<Instr>)
    ensures |r| == |code| && forall i :: 0 <= i < |r| ==> r[i] == code[i].(args := ReplacedAll(n, w, code[i].args))
  {
    seq(|code|, i requires 0 <= i < |code| => code[i].(args := ReplacedAll(n, w, code[i].args)))
  }

  /** One `replaceAllUsesWith` after the others that came before it. */
  lemma ReplaceNext(phis: seq<Phi>, n: nat, vs: seq<Value>)
    requires n < |phis| && forall i :: 0 <= i < |phis| ==> phis[i].init.Outside?
    ensures ReplacedAll(n, phis[n].init, SubAll(phis, n, vs)) == SubAll(phis, n + 1, vs)
  {}

  lemma ReplaceCodeNext(phis: seq<Phi>, n: nat, code: seq<Instr>)
    requires n < |phis| && forall i :: 0 <= i < |phis| ==> phis[i].init.Outside?
    ensures ReplacedCode(n, phis[n].init, SubCode(phis, n, code)) == SubCode(phis, n + 1, code)
  {
    forall i | 0 <= i < |code|
      ensures ReplacedCode(n, phis[n].init, SubCode(phis, n, code))[i] == SubCode(phis, n + 1, code)[i]
    {
      ReplaceNext(phis, n, code[i].args);
    }
  }

  lemma SubNone(phis: seq<Phi>, code: seq<Instr>, vs: seq<Value>)
    ensures SubCode(phis, 0, code) == code && SubAll(phis, 0, vs) == vs
  {
    forall i | 0 <= i < |code| ensures SubCode(phis, 0, code)[i] == code[i] {
      assert SubAll(phis, 0, code[i].args) == code[i].args;
    }
  }

  ghost predicate Substituted(phis: seq<Phi>, n: nat, u: Program, copies: seq<seq<Instr>>, conds: seq<Value>,
                              exits: seq<seq<Value>>)
    requires n <= |phis|
  {
    && |copies| == |conds| == |exits| == |u.copies| == |u.conds| == |u.exits|
    && (forall c :: 0 <= c < |copies| ==> copies[c] == SubCode(phis, n, u.copies[c]))
    && (forall c :: 0 <= c < |copies| ==> conds[c] == Sub(phis, n, u.conds[c]))
    && (forall c :: 0 <= c < |copies| ==> exits[c] == SubAll(phis, n, u.exits[c]))
  }

  /** Every phi of the header is replaced by its value from the preheader, in all the code. */
  method DropPhis(phis: seq<Phi>, u: Program) returns (r: Program)
    requires forall i :: 0 <= i < |phis| ==> phis[i].init.Outside?
    requires Shaped(u)
    ensures r.phis == [] && r.latches == u.latches && Substituted(phis, |phis|, u, r.copies, r.conds, r.exits)
  {
    var copies, conds, exits := u.copies, u.conds, u.exits;
    forall c | 0 <= c < |copies|
      ensures SubCode(phis, 0, u.copies[c]) == u.copies[c] && SubAll(phis, 0, u.exits[c]) == u.exits[c]
    {
      SubNone(phis, u.copies[c], u.exits[c]);
    }
    for n := 0 to |phis|
      invariant Substituted(phis, n, u, copies, conds, exits)
    {
      var w := phis[n].init;
      forall c | 0 <= c < |copies|
        ensures ReplacedCode(n, w, copies[c]) == SubCode(phis, n + 1, u.copies[c])
        ensures ReplacedAll(n, w, exits[c]) == SubAll(phis, n + 1, u.exits[c])
      {
        ReplaceCodeNext(phis, n, u.copies[c]);
        ReplaceNext(phis, n, u.exits[c]);
      }
      copies := seq(|copies|, c requires 0 <= c < |copies| => ReplacedCode(n, w, copies[c]));
      conds := seq(|conds|, c requires 0 <= c < |conds| => Replaced(n, w, conds[c]));
      exits := seq(|exits|, c requires 0 <= c < |exits| => ReplacedAll(n, w, exits[c]));
    }
    r := Program([], copies, conds, exits, u.latches);
  }

  /** The phis of the header now receive the values of the last copy. */
  method RetargetPhis(l: Loop, count: nat, last: map<nat, Value>) returns (phis: seq<Phi>)
    requires InSsa(l) && count > 0 && MapsTo(l, count - 1, last)
    ensures |phis| == |l.phis|
    ensures forall i :: 0 <= i < |phis| ==> phis[i] == Phi(l.phis[i].init, Latest(l, count - 1, l.phis[i].next))
  {
    phis := [];
    for i := 0 to |l.phis|
      invariant |phis| == i
      invariant forall j :: 0 <= j < i ==> phis[j] == Phi(l.phis[j].init, Latest(l, count - 1, l.phis[j].next))
    {
      var inVal := l.phis[i].next;
      MappedLatest(l, count - 1, last, inVal);
      if count > 1 && inVal.Local? { inVal := last[inVal.id]; }
      phis := phis + [Phi(l.phis[i].init, inVal)];
    }
  }

  method UnrollLoop(l: Loop, count: nat, complete: bool, latches: seq<Latch>, hooked: set<nat>)
    returns (u: Program, hooks: map<nat, seq<Value>>)
    requires InSsa(l) && count > 0 && |latches| == count
    requires forall h :: h in hooked ==> |l.phis| <= h < |l.phis| + |l.body|
    ensures IsUnrolled(l, count, complete, u) && u.latches == latches
    ensures Reported(hooked, count - 1, hooks)
  {
    var copies, conds, exits, last, hs := Clone(l, count, hooked);
    hooks := hs;
    if complete {
      u := DropPhis(l.phis, Program([], copies, conds, exits, latches));
    } else {
      var phis := RetargetPhis(l, count, last);
      u := Program(phis, copies, conds, exits, latches);
      forall c | 0 <= c < count
        ensures SubCode(l.phis, 0, copies[c]) == copies[c] && SubAll(l.phis, 0, exits[c]) == exits[c]
      {
        SubNone(l.phis, copies[c], exits[c]);
      }
    }
  }
}
