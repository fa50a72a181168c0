/** The input decides what the repair pass writes (postprocess/Repair.cpp): any two results for the same allocations
    have the same ranges, places and lines. So a file that redirects wrongly for some input always does. */
module RepairOutcome {
  import opened Options
  import opened Sorting
  import opened OrderedKeys
  import opened Segments
  import opened Masks
  import opened MergeSegments
  import opened Placement
  import opened Layout
  import opened Relocation
  import opened Exactness
  import opened Repair
  import opened Redirects
  import opened RepairFile

  // ---- one result per input --------------------------------------------------------------------------------------

  lemma {:induction false} LinesForKey(lines: seq<Line>, key: Key)
    ensures forall l :: l in LinesFor(lines, key) ==> l.key == key
  {
    if lines != [] { LinesForKey(lines[..|lines| - 1], key); }
  }

  /** Two repairs that agree in everything but their internal tables. */
  ghost predicate SameRepair(a: Repaired, b: Repaired) {
    && SameRecords(a.rel, b.rel)
    && a.plan.merged == b.plan.merged && a.plan.groups == b.plan.groups && a.plan.place == b.plan.place
    && (forall key :: LinesFor(a.lines, key) == LinesFor(b.lines, key))
  }

  lemma SameLines(a: Repaired, b: Repaired, key: Key)
    requires Kept(a) && Kept(b) && SameRecords(a.rel, b.rel) && a.plan.place == b.plan.place
    ensures LinesFor(a.lines, key) == LinesFor(b.lines, key)
  {
    assert RepairsKey(a.rel, a.plan, a.lines, key) && RepairsKey(b.rel, b.plan, b.lines, key);
    LinesForKey(a.lines, key);
    LinesForKey(b.lines, key);
    LinesUnique(a.plan.place, Recorded(a.rel, key), key, LinesFor(a.lines, key), LinesFor(b.lines, key));
  }

  /** The accesses to an allocation determine its repair. */
  lemma RepairUnique(analysis: Option<Analysis>, x: Allocation, a: Repaired, b: Repaired)
    requires RepairOf(analysis, x, a) && RepairOf(analysis, x, b)
    ensures SameRepair(a, b)
  {
    assert SameRecords(a.rel, b.rel);
    PlanUnique(a.rel, b.rel, a.plan, b.plan);
    forall key ensures LinesFor(a.lines, key) == LinesFor(b.lines, key) { SameLines(a, b, key); }
  }

  lemma {:induction false} SameFile(analysis: Option<Analysis>, input: seq<Allocation>, a: seq<Repaired>,
                                    b: seq<Repaired>, key: Key)
    requires RepairsOf(analysis, input, a) && RepairsOf(analysis, input, b)
    ensures LinesFor(AllLines(a), key) == LinesFor(AllLines(b), key)
    decreases |input|
  {
    if input != [] {
      var n := |input| - 1;
      SameFile(analysis, input[..n], a[..n], b[..n], key);
      RepairUnique(analysis, input[n], a[n], b[n]);
      LinesForAppend(AllLines(a[..n]), a[n].lines, key);
      LinesForAppend(AllLines(b[..n]), b[n].lines, key);
    }
  }

  lemma SameRelocates(handed: seq<Redirect>, a: Repaired, b: Repaired, key: Key)
    requires SameRepair(a, b) && Relocates(handed, a, key)
    ensures Relocates(handed, b, key)
  {
    forall k: nat, x: int | k < |Recorded(b.rel, key)| && Recorded(b.rel, key)[k].Contains(x)
      ensures MovedAt(handed, b.plan, k, x)
    {
      assert Recorded(a.rel, key)[k].Contains(x);
      assert MovedAt(handed, a.plan, k, x);
    }
  }

  /** What every thread is handed, and whether that is right, is decided by the input. */
  lemma RightDecided(analysis: Option<Analysis>, input: seq<Allocation>, a: seq<Repaired>, b: seq<Repaired>, key: Key)
    requires RepairsOf(analysis, input, a) && RepairsOf(analysis, input, b)
    ensures Handed(a, key) == Handed(b, key) && (Right(a, key) <==> Right(b, key))
  {
    SameFile(analysis, input, a, b, key);
    HandedLines(a, key);
    HandedLines(b, key);
    forall j | 0 <= j < |input|
      ensures Relocates(Handed(a, key), a[j], key) <==> Relocates(Handed(b, key), b[j], key)
    {
      RepairUnique(analysis, input[j], a[j], b[j]);
      RepairUnique(analysis, input[j], b[j], a[j]);
      if Relocates(Handed(a, key), a[j], key) { SameRelocates(Handed(a, key), a[j], b[j], key); }
      if Relocates(Handed(b, key), b[j], key) { SameRelocates(Handed(b, key), b[j], a[j], key); }
    }
  }

  // ---- a file that redirects wrongly ----------------------------------------------------------------------------

  function EightPlan(at: nat): Relocation.Plan {
    var seg := Segment(at, at + 8);
    Relocation.Plan([Affinity(seg, 1)], [Group(1, [seg])], map[at := Segment(0, 8)], map[at := (0, 0)])
  }

  /** An allocation of which thread 0 uses the eight bytes from `at` on, and its repair. */
  function EightBytes(pc: PC, at: nat): Allocation {
    Allocation([Access(Segment(at, at + 8), Key(pc, 0))], pc, at + 8)
  }

  function Eight(pc: PC, at: nat): Repaired {
    Repaired([Entry(Key(pc, 0), [Segment(at, at + 8)])], EightPlan(at), [Line(Key(pc, 0), at, 0)])
  }

  lemma EightSound(at: nat)
    ensures Sound(EightPlan(at))
  {
    var plan := EightPlan(at);
    assert BytesTo(plan.groups[0].segs, 1) == 8 by { assert BytesTo(plan.groups[0].segs, 0) == 0; }
    assert Placement.Slot(plan.groups, 0, 0);
    assert KeyPlaced(plan.groups, plan.place[at], plan.src[at], at);
    assert HasSlot(plan.groups, plan.merged[0]);
  }

  lemma EightLines(pc: PC, at: nat, key: Key)
    ensures LinesFor(Eight(pc, at).lines, key) == if key == Key(pc, 0) then [Line(Key(pc, 0), at, 0)] else []
    ensures Recorded(Eight(pc, at).rel, key) == if key == Key(pc, 0) then [Segment(at, at + 8)] else []
  {
    LinesForOne(Eight(pc, at).lines, Key(pc, 0), key);
  }

  lemma OneDescribed(place: map<nat, Segment>, seg: Segment, line: Line)
    requires Mapped(place, seg) && line.from == seg.start && line.to - line.from == Shift(place, seg)
    ensures Describes(place, [seg], [line])
  {
  }

  lemma EightServed(pc: PC, at: nat)
    ensures AllSheltered(EightPlan(at), [Segment(at, at + 8)])
    ensures Describes(EightPlan(at).place, [Segment(at, at + 8)], [Line(Key(pc, 0), at, 0)])
  {
    var seg, plan := Segment(at, at + 8), EightPlan(at);
    EightSound(at);
    assert Sheltered(plan, seg) by { assert seg.Inside(plan.merged[0].seg); }
    InsideMapped(plan, seg);
    assert Floor(plan.place.Keys, at) == at;
    OneDescribed(plan.place, seg, Line(Key(pc, 0), at, 0));
  }

  lemma EightKey(pc: PC, at: nat, key: Key)
    ensures RepairsKey(Eight(pc, at).rel, EightPlan(at), Eight(pc, at).lines, key)
    ensures StartsSorted(Recorded(Eight(pc, at).rel, key))
  {
    EightLines(pc, at, key);
    if key == Key(pc, 0) { EightServed(pc, at); }
  }

  lemma EightKept(pc: PC, at: nat)
    ensures Kept(Eight(pc, at)) && OwnLines(Eight(pc, at), Key(pc, 0)) == [Redirect(at, 0)]
    ensures Records(Eight(pc, at), Key(pc, 0))
  {
    EightSound(at);
    EightLines(pc, at, Key(pc, 0));
    assert Kept(Eight(pc, at)) by { forall key { EightKey(pc, at, key); } }
  }

  lemma EightThreads(pc: PC, at: nat)
    ensures ThreadsExact(Eight(pc, at).rel, EightPlan(at).merged)
  {
    var rel, seg := Eight(pc, at).rel, Segment(at, at + 8);
    forall t ensures HasBit(1, t) <==> UsesInside(rel, seg, t) {
      assert rel[0].segs[0] == seg && seg.Inside(seg);
      BitHas(0, t);
    }
  }

  lemma EightUses(pc: PC, at: nat, s: Segment, t: nat)
    ensures Uses(Eight(pc, at).rel, s, t) <==> s == Segment(at, at + 8) && t == 0
  {
    var rel := Eight(pc, at).rel;
    forall key: Key ensures s in Recorded(rel, key) <==> key == Key(pc, 0) && s == Segment(at, at + 8) {
      EightLines(pc, at, key);
    }
  }

  lemma EightExact(pc: PC, at: nat)
    ensures ExactRanges(Eight(pc, at).rel, EightPlan(at).merged)
  {
    var rel, merged, seg := Eight(pc, at).rel, EightPlan(at).merged, Segment(at, at + 8);
    forall s, t ensures Uses(rel, s, t) <==> s == seg && t == 0 { EightUses(pc, at, s, t); }
    assert Uses(rel, seg, 0);
    forall x ensures HoldByte(merged, x) <==> Touches(rel, x) { assert HoldByte(merged, x) <==> seg.Contains(x); }
    forall t ensures HasBit(1, t) <==> t == 0 { BitHas(0, t); }
    forall a, u, v, t | a in merged && Undivided(rel, a.seg, u, v) && HasBit(a.mask, t)
      ensures UsesWithin(rel, u, v, t)
    {
      assert Gap(rel, u) && Gap(rel, v);
    }
  }

  lemma EightGroups(at: nat, m: nat)
    ensures Ranges(EightPlan(at).groups, m) == WithMask(EightPlan(at).merged, m)
  {
    assert EightPlan(at).merged[..0] == [];
  }

  lemma EightRepairs(pc: PC, at: nat)
    ensures RepairOf(None, EightBytes(pc, at), Eight(pc, at))
  {
    EightKept(pc, at);
    EightThreads(pc, at);
    EightExact(pc, at);
    forall m { EightGroups(at, m); }
    assert TakenAll(None, EightBytes(pc, at).accesses) == EightBytes(pc, at).accesses;
    forall key { EightRecorded(pc, at, key); }
  }

  lemma EightRecorded(pc: PC, at: nat, key: Key)
    ensures Joins(RangesFor(EightBytes(pc, at).accesses, key), Recorded(Eight(pc, at).rel, key))
    ensures Recorded(Eight(pc, at).rel, key) == Chained(Sorted(RangesFor(EightBytes(pc, at).accesses, key)))
  {
    var rel, accesses, seg := Eight(pc, at).rel, EightBytes(pc, at).accesses, Segment(at, at + 8);
    EightLines(pc, at, key);
    assert accesses[..0] == [];
    assert RangesFor(accesses, key) == if key == Key(pc, 0) then [seg] else [];
    assert key == Key(pc, 0) ==> seg.Inside(Recorded(rel, key)[0]);
  }

  lemma BothRepaired(x: Allocation, y: Allocation, a: Repaired, b: Repaired)
    requires RepairOf(None, x, a) && RepairOf(None, y, b)
    ensures RepairsOf(None, [x, y], [a, b])
  {
  }

  /** One instruction of thread 0 uses bytes 0 to 8 of one allocation and bytes 64 to 72 of another. */
  function TwoInputs(pc: PC): seq<Allocation> { [EightBytes(pc, 0), EightBytes(pc, 64)] }

  /** The repairs of two allocations decide for every result of the pass on them. */
  lemma PairDecided(x: Allocation, y: Allocation, a: Repaired, b: Repaired, rs: seq<Repaired>, key: Key)
    requires RepairOf(None, x, a) && RepairOf(None, y, b) && RepairsOf(None, [x, y], rs)
    ensures Handed(rs, key) == Handed([a, b], key) && (Right(rs, key) <==> Right([a, b], key))
  {
    BothRepaired(x, y, a, b);
    RightDecided(None, [x, y], rs, [a, b], key);
  }

  lemma AloneRight(analysis: Option<Analysis>, x: Allocation, r: Repaired, key: Key)
    requires RepairOf(analysis, x, r)
    ensures Right([r], key)
  {
    LoneRight([r], key, 0);
  }

  lemma PairHanded(a: Repaired, b: Repaired, key: Key, p: Redirect, q: Redirect)
    requires OwnLines(a, key) == [p] && OwnLines(b, key) == [q] && RedirectBefore(p, q)
    ensures Handed([a, b], key) == [p, q]
  {
    HandedLines([a, b], key);
    PairsOfTwo(a, b, key);
    SortedPair(p, q);
  }

  lemma SortedPair(p: Redirect, q: Redirect)
    requires RedirectBefore(p, q)
    ensures Arranged([p] + [q]) == [p, q]
  {
    assert [p] + [q] == [p, q];
    assert Ordered(RedirectBefore, [p, q]);
    SortFixes(RedirectBefore, [p, q]);
  }

  lemma PairsOfTwo(a: Repaired, b: Repaired, key: Key)
    ensures Pairs(LinesFor(AllLines([a, b]), key)) == OwnLines(a, key) + OwnLines(b, key)
  {
    LinesOfTwo(a, b);
    LinesForAppend(a.lines, b.lines, key);
    PairsAppend(LinesFor(a.lines, key), LinesFor(b.lines, key));
  }

  lemma LinesOfTwo(a: Repaired, b: Repaired)
    ensures AllLines([a, b]) == a.lines + b.lines
  {
    AllLinesNext([], a);
    AllLinesNext([a], b);
    assert [] + [a] == [a] && [a] + [b] == [a, b];
  }

  lemma PairsAppend(a: seq<Line>, b: seq<Line>)
    ensures Pairs(a + b) == Pairs(a) + Pairs(b)
  {
  }

  /** Whatever the pass computes for these allocations, each alone is redirected rightly, and the common file
      redirects one of them wrongly: both get the line of the first. */
  lemma TwoAllocations(pc: PC, rs: seq<Repaired>)
    requires RepairsOf(None, TwoInputs(pc), rs)
    ensures Right([rs[0]], Key(pc, 0)) && Right([rs[1]], Key(pc, 0)) && !Right(rs, Key(pc, 0))
    ensures Handed(rs, Key(pc, 0)) == [Redirect(0, 0), Redirect(64, 0)]
  {
    var key, x, y := Key(pc, 0), EightBytes(pc, 0), EightBytes(pc, 64);
    assert RepairOf(None, x, rs[0]) && RepairOf(None, y, rs[1]);
    AloneRight(None, x, rs[0], key);
    AloneRight(None, y, rs[1], key);
    EightRepairs(pc, 0);
    EightRepairs(pc, 64);
    PairDecided(x, y, Eight(pc, 0), Eight(pc, 64), rs, key);
    EightPair(pc);
  }

  lemma EightPair(pc: PC)
    ensures !Right([Eight(pc, 0), Eight(pc, 64)], Key(pc, 0))
    ensures Handed([Eight(pc, 0), Eight(pc, 64)], Key(pc, 0)) == [Redirect(0, 0), Redirect(64, 0)]
  {
    EightKept(pc, 0);
    EightKept(pc, 64);
    PairWrong(Eight(pc, 0), Eight(pc, 64), Key(pc, 0));
    PairHanded(Eight(pc, 0), Eight(pc, 64), Key(pc, 0), Redirect(0, 0), Redirect(64, 0));
  }

  /** The pass itself on these allocations, and what thread 0 is handed for the instruction. */
  method RedirectTwo(pc: PC) returns (handed: seq<Redirect>)
    ensures handed == [Redirect(0, 0), Redirect(64, 0)]
  {
    var pass := new RepairPass(TwoInputs(pc), None);
    pass.Compute();
    var file := pass.PrintLayout();
    handed := GetThreaded(file, Key(pc, 0));
    FileHands(pass.repaired, pass.allPcsLayout, file, Key(pc, 0));
    TwoAllocations(pc, pass.repaired);
  }
}
