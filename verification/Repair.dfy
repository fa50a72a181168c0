/** The driver of the layout repair pass: `Layout::Layout`, `Layout::insert` and `Layout::compute`
    of postprocess/Repair.cpp. */
module Repair {
  import opened Options
  import opened Segments
  import opened Masks
  import opened MergeSegments
  import opened Placement
  import opened Layout
  import opened Relocation
  import opened Exactness

  /** What the static analysis says (`AnalysisResult`): the element size of an allocation site, and the
      range inside an element that an instruction touches. */
  datatype Analysis = Analysis(sizes: map<PC, nat>, ranges: map<PC, Segment>)

  /** The analysis as far as it concerns one allocation. */
  datatype Rule = Rule(single: nat, ranges: map<PC, Segment>)

  /** `get_size_by_pc`: the analysis is used only for allocations whose element size it knows. */
  function RuleFor(analysis: Option<Analysis>, pc: PC): Option<Rule> {
    if analysis.Some? && pc in analysis.value.sizes then Some(Rule(analysis.value.sizes[pc], analysis.value.ranges))
    else None
  }

  /** The analysis divides by a positive size and names ranges that are not empty. */
  predicate Usable(rule: Option<Rule>) {
    rule.Some? ==> rule.value.single > 0 && forall pc :: pc in rule.value.ranges ==> rule.value.ranges[pc].Nonempty()
  }

  predicate Ruled(rule: Option<Rule>, key: Key) { rule.Some? && key.pc in rule.value.ranges }

  /** The range that is recorded: the analysed one, in the element where the access starts, or the accessed one. */
  function Taken(rule: Option<Rule>, key: Key, range: Segment): (r: Segment)
    requires Usable(rule)
    ensures range.Nonempty() ==> r.Nonempty()
  {
    if Ruled(rule, key) then
      var base := range.start / rule.value.single * rule.value.single;
      assert base >= 0 by { FloorBounds(range.start, rule.value.single); }
      Segment(rule.value.ranges[key.pc].start + base, rule.value.ranges[key.pc].end + base)
    else range
  }

  lemma FloorBounds(x: nat, n: nat)
    requires n > 0
    ensures 0 <= x / n * n <= x < x / n * n + n && x - x / n * n == x % n
  {
    assert x == x / n * n + x % n;
  }

  /** A replaced range covers the access exactly when the analysed range covers the accessed part of an element. */
  lemma TakenCovers(rule: Option<Rule>, key: Key, range: Segment)
    requires Usable(rule) && Ruled(rule, key) && range.Nonempty()
    ensures var o := range.start % rule.value.single;
            range.Inside(Taken(rule, key, range)) <==>
            Segment(o, o + (range.end - range.start)).Inside(rule.value.ranges[key.pc])
  {
    FloorBounds(range.start, rule.value.single);
  }

  /** The input after `insert` has consulted the analysis. */
  function TakenAll(rule: Option<Rule>, input: seq<Access>): (r: seq<Access>)
    requires Usable(rule)
    ensures |r| == |input|
    ensures forall i :: 0 <= i < |r| ==> r[i] == Access(Taken(rule, input[i].key, input[i].seg), input[i].key)
  {
    seq(|input|, i requires 0 <= i < |input| => Access(Taken(rule, input[i].key, input[i].seg), input[i].key))
  }

  /** The ranges an input records for a key, in order. */
  function RangesFor(input: seq<Access>, key: Key): seq<Segment> {
    if input == [] then []
    else
      var n := |input| - 1;
      if input[n].key == key then RangesFor(input[..n], key) + [input[n].seg] else RangesFor(input[..n], key)
  }

  lemma {:induction false} RangesForHas(input: seq<Access>, key: Key)
    ensures forall s :: s in RangesFor(input, key) <==> Access(s, key) in input
  {
    if input != [] {
      var n := |input| - 1;
      RangesForHas(input[..n], key);
      assert input == input[..n] + [input[n]];
    }
  }

  /** Sorting and joining touching ranges, key by key. */
  ghost predicate Normalized(rel: seq<Entry>, rel': seq<Entry>) {
    && |rel'| == |rel|
    && (forall i :: 0 <= i < |rel| ==>
        rel'[i].key == rel[i].key && Joins(rel[i].segs, rel'[i].segs) && StartsSorted(rel'[i].segs)
        && rel'[i].segs == Chained(Sorted(rel[i].segs)))
  }

  method Normalize(rel: seq<Entry>) returns (rel': seq<Entry>)
    requires forall i :: 0 <= i < |rel| ==> AllNonempty(rel[i].segs)
    ensures Normalized(rel, rel')
  {
    rel' := [];
    for i := 0 to |rel|
      invariant |rel'| == i
      invariant forall j :: 0 <= j < i ==>
                  rel'[j].key == rel[j].key && Joins(rel[j].segs, rel'[j].segs) && StartsSorted(rel'[j].segs)
                  && rel'[j].segs == Chained(Sorted(rel[j].segs))
    {
      SortedMembers(rel[i].segs);
      var segs := MergeNeighbors(Sorted(rel[i].segs));
      JoinsMembers(Sorted(rel[i].segs), rel[i].segs, segs);
      rel' := rel' + [Entry(rel[i].key, segs)];
    }
  }

  lemma JoinsMembers(a: seq<Segment>, b: seq<Segment>, ret: seq<Segment>)
    requires (forall s :: s in a <==> s in b) && Joins(a, ret)
    ensures Joins(b, ret)
  {}

  /** Thread `t` recorded some range inside `seg`. */
  ghost predicate UsesInside(rel: seq<Entry>, seg: Segment, t: nat) {
    exists i, s :: 0 <= i < |rel| && rel[i].key.tid == t && s in rel[i].segs && s.Inside(seg)
  }

  /** Masks say exactly which threads use a merged range. */
  ghost predicate ThreadsExact(rel: seq<Entry>, merged: seq<Affinity>) {
    forall a, t :: a in merged ==> (HasBit(a.mask, t) <==> UsesInside(rel, a.seg, t))
  }

  lemma AffinityTable(rel: seq<Entry>, aff: seq<Affinity>)
    requires AffinityOf(rel, |rel|, 0, aff)
    requires forall i :: 0 <= i < |rel| ==> AllNonempty(rel[i].segs)
    ensures Table(aff)
  {
    forall k | 0 <= k < |aff| ensures aff[k].seg.Nonempty() {
      MaskAt(aff, k);
      var t := SomeBit(aff[k].mask);
      assert UsedBy(rel, |rel|, 0, aff[k].seg, t);
    }
  }

  lemma {:induction false} SomeBit(m: nat) returns (t: nat)
    requires m != 0
    ensures HasBit(m, t)
  {
    if m % 2 == 1 { t := 0; }
    else {
      t := SomeBit(m / 2);
      t := t + 1;
    }
  }

  /** A recorded range is an entry of the table that carries the thread's bit. */
  lemma AffinityHas(rel: seq<Entry>, aff: seq<Affinity>, i: nat, s: Segment) returns (k: nat)
    requires AffinityOf(rel, |rel|, 0, aff) && i < |rel| && s in rel[i].segs
    ensures k < |aff| && aff[k].seg == s && HasBit(aff[k].mask, rel[i].key.tid)
  {
    var t := rel[i].key.tid;
    var j :| 0 <= j < |rel[i].segs| && rel[i].segs[j] == s;
    assert UsedBy(rel, |rel|, 0, s, t);
    assert HasBit(MaskOf(aff, s), t);
    ZeroHas(t);
    assert HasSeg(aff, s);
    k := SegIndex(aff, s);
  }

  /** Every recorded range ends up inside exactly one merged range, whose mask includes its thread. */
  lemma RangeHome(rel: seq<Entry>, aff: seq<Affinity>, home: seq<nat>, merged: seq<Affinity>, i: nat, s: Segment)
    returns (a: Affinity)
    requires AffinityOf(rel, |rel|, 0, aff) && |home| == |aff| && Homes(aff, home, merged) && Separated(merged)
    requires i < |rel| && s in rel[i].segs && s.Nonempty()
    ensures a in merged && s.Inside(a.seg) && HasBit(a.mask, rel[i].key.tid)
    ensures forall b :: b in merged && s.Inside(b.seg) ==> b == a
  {
    var k := AffinityHas(rel, aff, i, s);
    a := merged[home[k]];
  }

  lemma MasksExact(rel: seq<Entry>, aff: seq<Affinity>, home: seq<nat>, merged: seq<Affinity>)
    requires AffinityOf(rel, |rel|, 0, aff) && |home| == |aff| && Homes(aff, home, merged) && Tight(aff, home, merged)
    requires Separated(merged)
    requires forall i :: 0 <= i < |rel| ==> AllNonempty(rel[i].segs)
    ensures ThreadsExact(rel, merged)
  {
    forall a, t | a in merged ensures HasBit(a.mask, t) <==> UsesInside(rel, a.seg, t) {
      if HasBit(a.mask, t) {
        var m :| 0 <= m < |merged| && merged[m] == a;
        assert BitSource(aff, home, m, t);
        var k :| 0 <= k < |home| && home[k] == m && HasBit(aff[k].mask, t);
        MaskAt(aff, k);
        assert UsedBy(rel, |rel|, 0, aff[k].seg, t);
        assert aff[k].seg.Inside(a.seg);
      }
      if UsesInside(rel, a.seg, t) {
        var i, s :| 0 <= i < |rel| && rel[i].key.tid == t && s in rel[i].segs && s.Inside(a.seg);
        var b := RangeHome(rel, aff, home, merged, i, s);
      }
    }
  }

  // ---- the merged ranges are those the relation calls for -----------------------------------------------------------

  lemma UsesEntry(rel: seq<Entry>, aff: seq<Affinity>, s: Segment, t: nat) returns (k: nat)
    requires AffinityOf(rel, |rel|, 0, aff) && Uses(rel, s, t)
    ensures k < |aff| && aff[k].seg == s && HasBit(aff[k].mask, t)
    ensures exists i :: 0 <= i < |rel| && s in rel[i].segs
  {
    var key: Key :| key.tid == t && s in Recorded(rel, key);
    var i := RecordedEntry(rel, key);
    k := AffinityHas(rel, aff, i, s);
  }

  lemma EntryUses(rel: seq<Entry>, aff: seq<Affinity>, k: nat, t: nat)
    requires KeysSorted(rel) && AffinityOf(rel, |rel|, 0, aff) && k < |aff| && HasBit(aff[k].mask, t)
    ensures Uses(rel, aff[k].seg, t)
  {
    MaskAt(aff, k);
    assert UsedBy(rel, |rel|, 0, aff[k].seg, t);
    var i, j :| 0 <= i < |rel| && 0 <= j < |rel[i].segs| && rel[i].segs[j] == aff[k].seg && rel[i].key.tid == t;
    RecordedAt(rel, i);
    assert aff[k].seg in Recorded(rel, rel[i].key);
  }

  lemma EntryUsed(rel: seq<Entry>, aff: seq<Affinity>, k: nat) returns (t: nat)
    requires KeysSorted(rel) && AffinityOf(rel, |rel|, 0, aff) && k < |aff|
    ensures Uses(rel, aff[k].seg, t)
  {
    MaskAt(aff, k);
    t := SomeBit(aff[k].mask);
    EntryUses(rel, aff, k, t);
  }

  /** What the two merging passes leave behind. */
  ghost predicate MergedFrom(aff: seq<Affinity>, home: seq<nat>, merged: seq<Affinity>) {
    && |home| == |aff| && Homes(aff, home, merged) && Tight(aff, home, merged) && EvenCells(aff, home, merged)
    && Separated(merged) && Reduced(merged)
  }

  lemma ExactHold(rel: seq<Entry>, aff: seq<Affinity>, home: seq<nat>, merged: seq<Affinity>, s: Segment, t: nat)
    requires AffinityOf(rel, |rel|, 0, aff) && MergedFrom(aff, home, merged) && Uses(rel, s, t)
    requires forall i :: 0 <= i < |rel| ==> AllNonempty(rel[i].segs)
    ensures s.Nonempty() && Hold(merged, s)
  {
    var k := UsesEntry(rel, aff, s, t);
    assert merged[home[k]] in merged;
  }

  lemma ExactByte(rel: seq<Entry>, aff: seq<Affinity>, home: seq<nat>, merged: seq<Affinity>, x: int)
    requires KeysSorted(rel) && AffinityOf(rel, |rel|, 0, aff) && MergedFrom(aff, home, merged)
    ensures HoldByte(merged, x) <==> Touches(rel, x)
  {
    if HoldByte(merged, x) {
      var a :| a in merged && a.seg.Contains(x);
      var m :| 0 <= m < |merged| && merged[m] == a;
      assert ByteSource(aff, home, m, x);
      var k :| 0 <= k < |home| && home[k] == m && aff[k].seg.Contains(x);
      var t := EntryUsed(rel, aff, k);
    }
    if Touches(rel, x) {
      var s, t :| Uses(rel, s, t) && s.Contains(x);
      var k := UsesEntry(rel, aff, s, t);
      assert merged[home[k]] in merged && merged[home[k]].seg.Contains(x);
    }
  }

  lemma ExactBit(rel: seq<Entry>, aff: seq<Affinity>, home: seq<nat>, merged: seq<Affinity>, a: Affinity, t: nat)
    requires KeysSorted(rel) && AffinityOf(rel, |rel|, 0, aff) && MergedFrom(aff, home, merged) && a in merged
    requires forall i :: 0 <= i < |rel| ==> AllNonempty(rel[i].segs)
    ensures HasBit(a.mask, t) <==> UsesWithin(rel, a.seg.start, a.seg.end, t)
  {
    var m :| 0 <= m < |merged| && merged[m] == a;
    if HasBit(a.mask, t) {
      assert BitSource(aff, home, m, t);
      var k :| 0 <= k < |home| && home[k] == m && HasBit(aff[k].mask, t);
      EntryUses(rel, aff, k, t);
      assert aff[k].seg.Inside(a.seg);
    }
    if UsesWithin(rel, a.seg.start, a.seg.end, t) {
      var s :| Uses(rel, s, t) && a.seg.start <= s.start && s.end <= a.seg.end;
      var k := UsesEntry(rel, aff, s, t);
      Disjoint(merged, a, merged[home[k]], s.start);
    }
  }

  lemma ExactPart(rel: seq<Entry>, aff: seq<Affinity>, home: seq<nat>, merged: seq<Affinity>, a: Affinity,
                  u: int, v: int, t: nat)
    requires KeysSorted(rel) && AffinityOf(rel, |rel|, 0, aff) && MergedFrom(aff, home, merged) && a in merged
    requires Undivided(rel, a.seg, u, v) && HasBit(a.mask, t)
    ensures UsesWithin(rel, u, v, t)
  {
    var m :| 0 <= m < |merged| && merged[m] == a;
    forall i, x | 0 <= i < |aff| && Gap(rel, x) ensures !(aff[i].seg.start < x < aff[i].seg.end) {
      var r := EntryUsed(rel, aff, i);
    }
    assert Cell(aff, merged[m].seg, u, v);
    assert BitWithin(aff, home, m, u, v, t);
    var k :| 0 <= k < |home| && home[k] == m && u <= aff[k].seg.start && aff[k].seg.end <= v && HasBit(aff[k].mask, t);
    EntryUses(rel, aff, k, t);
  }

  lemma MergedExact(rel: seq<Entry>, aff: seq<Affinity>, home: seq<nat>, merged: seq<Affinity>)
    requires KeysSorted(rel) && AffinityOf(rel, |rel|, 0, aff) && MergedFrom(aff, home, merged)
    requires forall i :: 0 <= i < |rel| ==> AllNonempty(rel[i].segs)
    ensures ExactRanges(rel, merged)
  {
    forall s, t | Uses(rel, s, t) ensures s.Nonempty() && Hold(merged, s) { ExactHold(rel, aff, home, merged, s, t); }
    forall x ensures HoldByte(merged, x) <==> Touches(rel, x) { ExactByte(rel, aff, home, merged, x); }
    forall a, t | a in merged ensures HasBit(a.mask, t) <==> UsesWithin(rel, a.seg.start, a.seg.end, t) {
      ExactBit(rel, aff, home, merged, a, t);
    }
    forall a, u, v, t | a in merged && Undivided(rel, a.seg, u, v) && HasBit(a.mask, t)
      ensures UsesWithin(rel, u, v, t)
    {
      ExactPart(rel, aff, home, merged, a, u, v, t);
    }
  }

  lemma {:induction false} NormalizedRecorded(rel: seq<Entry>, rel': seq<Entry>, key: Key)
    requires Normalized(rel, rel')
    ensures Joins(Recorded(rel, key), Recorded(rel', key)) && StartsSorted(Recorded(rel', key))
    ensures Recorded(rel', key) == Chained(Sorted(Recorded(rel, key)))
  {
    if rel == [] {
    } else if rel[0].key != key {
      NormalizedRecorded(rel[1..], rel'[1..], key);
    }
  }

  /** All ranges of the relation are nonempty and lie inside merged ranges. */
  ghost predicate RelSheltered(plan: Plan, rel: seq<Entry>) {
    forall i :: 0 <= i < |rel| ==> AllSheltered(plan, rel[i].segs)
  }

  lemma RecordedKey(rel: seq<Entry>, plan: Plan, lines: seq<Line>, key: Key)
    requires RelSheltered(plan, rel) && Recorded(rel, key) != []
    requires forall i :: 0 <= i < |rel| ==> Served(plan.place, rel[i], lines)
    ensures RepairsKey(rel, plan, lines, key)
  {
    var i := RecordedEntry(rel, key);
    assert Served(plan.place, rel[i], lines) && AllSheltered(plan, rel[i].segs);
  }

  lemma UnrecordedKey(rel: seq<Entry>, plan: Plan, lines: seq<Line>, key: Key)
    requires KeysSorted(rel) && Recorded(rel, key) == [] && (forall i :: 0 <= i < |rel| ==> rel[i].segs != [])
    requires forall l :: l in lines ==> HasKey(rel, l.key)
    ensures RepairsKey(rel, plan, lines, key)
  {
    forall l | l in lines ensures l.key != key {
      var i :| 0 <= i < |rel| && rel[i].key == l.key;
      RecordedAt(rel, i);
    }
    NoLines(lines, key);
  }

  lemma RecordedRepairs(rel: seq<Entry>, plan: Plan, lines: seq<Line>)
    requires KeysSorted(rel) && Sound(plan) && RelSheltered(plan, rel)
    requires forall i :: 0 <= i < |rel| ==> Served(plan.place, rel[i], lines)
    requires forall i :: 0 <= i < |rel| ==> rel[i].segs != []
    requires forall l :: l in lines ==> HasKey(rel, l.key)
    ensures Repairs(rel, plan, lines)
  {
    forall key ensures RepairsKey(rel, plan, lines, key) {
      if Recorded(rel, key) != [] { RecordedKey(rel, plan, lines, key); }
      else { UnrecordedKey(rel, plan, lines, key); }
    }
  }

  lemma {:induction false} NoLines(lines: seq<Line>, key: Key)
    requires forall l :: l in lines ==> l.key != key
    ensures LinesFor(lines, key) == []
  {
    if lines != [] { NoLines(lines[..|lines| - 1], key); }
  }

  lemma PlanSheltered(rel: seq<Entry>, aff: seq<Affinity>, home: seq<nat>, plan: Plan)
    requires AffinityOf(rel, |rel|, 0, aff) && |home| == |aff| && Homes(aff, home, plan.merged) && Sound(plan)
    requires forall i :: 0 <= i < |rel| ==> AllNonempty(rel[i].segs)
    ensures RelSheltered(plan, rel)
  {
    forall i, s | 0 <= i < |rel| && s in rel[i].segs
      ensures s.Nonempty() && Sheltered(plan, s) && Mapped(plan.place, s)
    {
      var a := RangeHome(rel, aff, home, plan.merged, i, s);
      assert s.Inside(a.seg);
      InsideMapped(plan, s);
    }
  }

  class LayoutPass {
    const rule: Option<Rule>
    var accessRelation: seq<Entry>
    var remappingLines: seq<Line>
    var afterMapped: nat
    ghost var plan: Plan

    /** Thread masks are built with `1 << thread` on an `int`, so thread ids stay below 31. */
    constructor (apiInput: seq<Access>, pc: PC, analysis: Option<Analysis>)
      requires apiInput != [] && Usable(RuleFor(analysis, pc))
      requires forall a :: a in apiInput ==> a.seg.Nonempty() && a.key.tid < 31
      ensures Repairs(accessRelation, plan, remappingLines) && afterMapped == NewSize(plan.groups)
      ensures forall key :: Joins(RangesFor(TakenAll(RuleFor(analysis, pc), apiInput), key),
                                  Recorded(accessRelation, key))
                            && StartsSorted(Recorded(accessRelation, key))
      ensures forall key :: Recorded(accessRelation, key) ==
                            Chained(Sorted(RangesFor(TakenAll(RuleFor(analysis, pc), apiInput), key)))
      ensures ThreadsExact(accessRelation, plan.merged) && Reduced(plan.merged) && Determined(accessRelation, plan)
    {
      rule, accessRelation, remappingLines, afterMapped := RuleFor(analysis, pc), [], [], 0;
      new;
      ghost var taken := TakenAll(rule, apiInput);
      for i := 0 to |apiInput|
        invariant remappingLines == []
        invariant KeysSorted(accessRelation)
        invariant forall key :: Recorded(accessRelation, key) == RangesFor(taken[..i], key)
        invariant i > 0 ==> accessRelation != []
        invariant forall j :: 0 <= j < |accessRelation| ==> accessRelation[j].segs != []
      {
        assert taken[..i + 1][..i] == taken[..i];
        Insert(apiInput[i].key, apiInput[i].seg);
      }
      assert taken[..|apiInput|] == taken;
      forall j | 0 <= j < |accessRelation| ensures AllNonempty(accessRelation[j].segs) {
        RecordedAt(accessRelation, j);
        RangesForHas(taken, accessRelation[j].key);
      }
      Compute();
    }

    method Insert(key: Key, range: Segment)
      requires Usable(rule) && KeysSorted(accessRelation)
      requires forall j :: 0 <= j < |accessRelation| ==> accessRelation[j].segs != []
      modifies this`accessRelation
      ensures KeysSorted(accessRelation) && accessRelation != []
      ensures forall j :: 0 <= j < |accessRelation| ==> accessRelation[j].segs != []
      ensures forall k :: Recorded(accessRelation, k) ==
                          old(Recorded(accessRelation, k)) + if k == key then [Taken(rule, key, range)] else []
    {
      var seg := range;
      if rule.Some? && key.pc in rule.value.ranges {
        var n := range.start / rule.value.single;
        FloorBounds(range.start, rule.value.single);
        var analysed := rule.value.ranges[key.pc];
        seg := Segment(analysed.start + n * rule.value.single, analysed.end + n * rule.value.single);
      }
      AddRangeNonempty(accessRelation, key, seg);
      forall k { AddRangeRecorded(accessRelation, key, seg, k); }
      accessRelation := AddRange(accessRelation, key, seg);
    }

    method Compute()
      requires KeysSorted(accessRelation) && accessRelation != []
      requires forall j :: 0 <= j < |accessRelation| ==>
                 accessRelation[j].segs != [] && AllNonempty(accessRelation[j].segs)
      modifies this
      ensures Repairs(accessRelation, plan, remappingLines) && afterMapped == NewSize(plan.groups)
      ensures forall key :: Joins(old(Recorded(accessRelation, key)), Recorded(accessRelation, key))
                            && StartsSorted(Recorded(accessRelation, key))
      ensures forall key :: Recorded(accessRelation, key) == Chained(Sorted(old(Recorded(accessRelation, key))))
      ensures ThreadsExact(accessRelation, plan.merged) && Reduced(plan.merged) && Determined(accessRelation, plan)
    {
      ghost var before := accessRelation;
      accessRelation := Normalize(accessRelation);
      NormalizedShape(before, accessRelation);
      Arrange();
      forall key
        ensures Joins(Recorded(before, key), Recorded(accessRelation, key))
        ensures StartsSorted(Recorded(accessRelation, key))
        ensures Recorded(accessRelation, key) == Chained(Sorted(Recorded(before, key)))
      {
        NormalizedRecorded(before, accessRelation, key);
      }
    }

    /** The part of `compute` behind the optional extrapolation: it repairs whatever relation it is given. */
    method Arrange()
      requires KeysSorted(accessRelation) && accessRelation != []
      requires forall j :: 0 <= j < |accessRelation| ==>
                 accessRelation[j].segs != [] && AllNonempty(accessRelation[j].segs)
      modifies this`plan, this`afterMapped, this`remappingLines
      ensures Repairs(accessRelation, plan, remappingLines) && afterMapped == NewSize(plan.groups)
      ensures ThreadsExact(accessRelation, plan.merged) && Reduced(plan.merged) && Determined(accessRelation, plan)
    {
      var rel := accessRelation;
      var affinity := GetThreadAffinity(rel);
      AffinityTable(rel, affinity);
      assert affinity != [] by { var k := AffinityHas(rel, affinity, 0, rel[0].segs[0]); }
      var merged, home := Merge(affinity);
      MasksExact(rel, affinity, home, merged);
      MergedExact(rel, affinity, home, merged);
      var grouped := GroupByMask(merged);
      GroupsPackable(merged, grouped);
      var place, src, size := CalcRemapping(grouped);
      plan := Plan(merged, grouped, place, src);
      PlanSheltered(rel, affinity, home, plan);
      afterMapped := size;
      remappingLines := Remap(rel, place);
      RecordedRepairs(rel, plan, remappingLines);
    }
  }

  lemma {:induction false} AddRangeNonempty(rel: seq<Entry>, key: Key, seg: Segment)
    requires KeysSorted(rel) && forall j :: 0 <= j < |rel| ==> rel[j].segs != []
    ensures forall j :: 0 <= j < |AddRange(rel, key, seg)| ==> AddRange(rel, key, seg)[j].segs != []
  {
    if rel != [] && !key.Less(rel[0].key) && rel[0].key != key { AddRangeNonempty(rel[1..], key, seg); }
  }

  lemma NormalizedShape(rel: seq<Entry>, rel': seq<Entry>)
    requires Normalized(rel, rel') && KeysSorted(rel)
    requires forall j :: 0 <= j < |rel| ==> rel[j].segs != []
    ensures KeysSorted(rel')
    ensures forall j :: 0 <= j < |rel'| ==> rel'[j].segs != [] && AllNonempty(rel'[j].segs)
  {
    forall j | 0 <= j < |rel'| ensures rel'[j].segs != [] {
      assert rel[j].segs[0] in rel[j].segs;
      assert InsideSome(rel[j].segs[0], rel'[j].segs);
    }
  }
}
