/** The layout repair pass chooses the one set of ranges that the recorded accesses call for: no byte nobody
    recorded, no thread nobody recorded, no range joined without need (postprocess/Repair.cpp). */
module Exactness {
  import opened OrderedKeys
  import opened Segments
  import opened Masks
  import opened MergeSegments
  import opened Placement
  import opened Layout
  import opened Relocation

  // ---- what the relation says --------------------------------------------------------------------------------------

  /** An instruction of thread `t` recorded the range `s`. */
  ghost predicate Uses(rel: seq<Entry>, s: Segment, t: nat) {
    exists key: Key :: key.tid == t && s in Recorded(rel, key)
  }

  /** Byte `x` was recorded. */
  ghost predicate Touches(rel: seq<Entry>, x: int) { exists s, t :: Uses(rel, s, t) && s.Contains(x) }

  /** Thread `t` recorded a range between `u` and `v`. */
  ghost predicate UsesWithin(rel: seq<Entry>, u: int, v: int, t: nat) {
    exists s :: Uses(rel, s, t) && u <= s.start && s.end <= v
  }

  /** No recorded range has bytes on both sides of `x`. */
  ghost predicate Gap(rel: seq<Entry>, x: int) { forall s, t :: Uses(rel, s, t) ==> !(s.start < x < s.end) }

  /** A part of `seg` that no recorded range leaves. */
  ghost predicate Undivided(rel: seq<Entry>, seg: Segment, u: int, v: int) {
    seg.start <= u < v <= seg.end && Gap(rel, u) && Gap(rel, v)
  }

  ghost predicate Hold(merged: seq<Affinity>, s: Segment) { exists a :: a in merged && s.Inside(a.seg) }

  ghost predicate HoldByte(merged: seq<Affinity>, x: int) { exists a :: a in merged && a.seg.Contains(x) }

  /** The ranges the relation calls for. */
  ghost predicate ExactRanges(rel: seq<Entry>, merged: seq<Affinity>) {
    && Separated(merged) && Reduced(merged)
    && (forall s, t :: Uses(rel, s, t) ==> s.Nonempty() && Hold(merged, s))
    && (forall x :: HoldByte(merged, x) <==> Touches(rel, x))
    && (forall a, t :: a in merged ==> (HasBit(a.mask, t) <==> UsesWithin(rel, a.seg.start, a.seg.end, t)))
    && (forall a, u, v, t :: a in merged && Undivided(rel, a.seg, u, v) && HasBit(a.mask, t) ==>
        UsesWithin(rel, u, v, t))
  }

  // ---- they are unique ---------------------------------------------------------------------------------------------

  lemma Disjoint(merged: seq<Affinity>, a: Affinity, b: Affinity, x: int)
    requires Separated(merged) && a in merged && b in merged && a.seg.Contains(x) && b.seg.Contains(x)
    ensures a == b
  {
    var i :| 0 <= i < |merged| && merged[i] == a;
    var j :| 0 <= j < |merged| && merged[j] == b;
  }

  /** A recorded range does not cross the border of a merged one. */
  lemma BorderGap(rel: seq<Entry>, merged: seq<Affinity>, a: Affinity)
    requires ExactRanges(rel, merged) && a in merged
    ensures Gap(rel, a.seg.start) && Gap(rel, a.seg.end)
  {
    forall s, t | Uses(rel, s, t) ensures !(s.start < a.seg.start < s.end) && !(s.start < a.seg.end < s.end) {
      assert Hold(merged, s);
      var b :| b in merged && s.Inside(b.seg);
      var i :| 0 <= i < |merged| && merged[i] == a;
      var j :| 0 <= j < |merged| && merged[j] == b;
    }
  }

  /** Two ranges of two solutions that meet have the same threads. */
  lemma MeetBit(rel: seq<Entry>, m1: seq<Affinity>, m2: seq<Affinity>, a: Affinity, b: Affinity, x: int, t: nat)
    requires ExactRanges(rel, m1) && ExactRanges(rel, m2) && a in m1 && b in m2
    requires a.seg.Contains(x) && b.seg.Contains(x) && HasBit(a.mask, t)
    ensures HasBit(b.mask, t)
  {
    BorderGap(rel, m1, a);
    BorderGap(rel, m2, b);
    var u := if a.seg.start >= b.seg.start then a.seg.start else b.seg.start;
    var v := if a.seg.end <= b.seg.end then a.seg.end else b.seg.end;
    assert Undivided(rel, a.seg, u, v);
    assert UsesWithin(rel, u, v, t);
    var s :| Uses(rel, s, t) && u <= s.start && s.end <= v;
    assert UsesWithin(rel, b.seg.start, b.seg.end, t);
  }

  lemma MeetMask(rel: seq<Entry>, m1: seq<Affinity>, m2: seq<Affinity>, a: Affinity, b: Affinity, x: int)
    requires ExactRanges(rel, m1) && ExactRanges(rel, m2) && a in m1 && b in m2
    requires a.seg.Contains(x) && b.seg.Contains(x)
    ensures a.mask == b.mask
  {
    forall t ensures HasBit(a.mask, t) <==> HasBit(b.mask, t) {
      if HasBit(a.mask, t) { MeetBit(rel, m1, m2, a, b, x, t); }
      if HasBit(b.mask, t) { MeetBit(rel, m2, m1, b, a, x, t); }
    }
    SameBits(a.mask, b.mask);
  }

  /** Touching ranges of one solution differ in their masks. */
  lemma TouchDiffer(merged: seq<Affinity>, a: Affinity, b: Affinity)
    requires Separated(merged) && Reduced(merged) && a in merged && b in merged && a.seg.end == b.seg.start
    ensures a.mask != b.mask
  {
    var i :| 0 <= i < |merged| && merged[i] == a;
    var j :| 0 <= j < |merged| && merged[j] == b;
    assert i + 1 < j ==> merged[i + 1].seg.Nonempty();
    assert j == i + 1;
    assert merged[j - 1].seg.Touch(merged[j].seg);
  }

  /** Neither of two ranges that meet goes beyond the other. */
  lemma MeetEnds(rel: seq<Entry>, m1: seq<Affinity>, m2: seq<Affinity>, a: Affinity, b: Affinity, x: int)
    requires ExactRanges(rel, m1) && ExactRanges(rel, m2) && a in m1 && b in m2
    requires a.seg.Contains(x) && b.seg.Contains(x)
    ensures b.seg.start >= a.seg.start && b.seg.end <= a.seg.end
  {
    MeetMask(rel, m1, m2, a, b, x);
    if b.seg.end > a.seg.end {
      assert HoldByte(m2, a.seg.end) && Touches(rel, a.seg.end);
      assert HoldByte(m1, a.seg.end);
      var c :| c in m1 && c.seg.Contains(a.seg.end);
      NextStarts(m1, a, c);
      MeetMask(rel, m1, m2, c, b, a.seg.end);
      TouchDiffer(m1, a, c);
    }
    if b.seg.start < a.seg.start {
      assert HoldByte(m2, a.seg.start - 1) && Touches(rel, a.seg.start - 1);
      assert HoldByte(m1, a.seg.start - 1);
      var c :| c in m1 && c.seg.Contains(a.seg.start - 1);
      PreviousEnds(m1, a, c);
      MeetMask(rel, m1, m2, c, b, a.seg.start - 1);
      TouchDiffer(m1, c, a);
    }
  }

  lemma NextStarts(merged: seq<Affinity>, a: Affinity, c: Affinity)
    requires Separated(merged) && a in merged && c in merged && c.seg.Contains(a.seg.end)
    ensures c.seg.start == a.seg.end
  {
    var i :| 0 <= i < |merged| && merged[i] == a;
    var j :| 0 <= j < |merged| && merged[j] == c;
  }

  lemma PreviousEnds(merged: seq<Affinity>, a: Affinity, c: Affinity)
    requires Separated(merged) && a in merged && c in merged && c.seg.Contains(a.seg.start - 1)
    ensures c.seg.end == a.seg.start
  {
    var i :| 0 <= i < |merged| && merged[i] == a;
    var j :| 0 <= j < |merged| && merged[j] == c;
  }

  lemma SameRange(rel: seq<Entry>, m1: seq<Affinity>, m2: seq<Affinity>, a: Affinity)
    requires ExactRanges(rel, m1) && ExactRanges(rel, m2) && a in m1
    ensures a in m2
  {
    var i :| 0 <= i < |m1| && m1[i] == a;
    var x := a.seg.start;
    assert a.seg.Contains(x);
    assert HoldByte(m1, x) && Touches(rel, x);
    assert HoldByte(m2, x);
    var b :| b in m2 && b.seg.Contains(x);
    MeetMask(rel, m1, m2, a, b, x);
    MeetEnds(rel, m1, m2, a, b, x);
    MeetEnds(rel, m2, m1, b, a, x);
  }

  /** Separated tables with the same members are the same. */
  lemma {:induction false} SameTable(m1: seq<Affinity>, m2: seq<Affinity>)
    requires Separated(m1) && Separated(m2) && forall a :: a in m1 <==> a in m2
    ensures m1 == m2
  {
    if m1 == [] {
      FirstMember(m2);
    } else {
      assert m1[0] in m2;
      var j :| 0 <= j < |m2| && m2[j] == m1[0];
      assert m2[0] in m1;
      var i :| 0 <= i < |m1| && m1[i] == m2[0];
      assert m1[0] == m2[0];
      forall a ensures a in m1[1..] <==> a in m2[1..] {
        TailMembers(m1, a);
        TailMembers(m2, a);
      }
      SameTable(m1[1..], m2[1..]);
    }
  }

  lemma FirstMember(m: seq<Affinity>)
    ensures m != [] ==> m[0] in m
  {
  }

  lemma TailMembers(m: seq<Affinity>, a: Affinity)
    requires Separated(m) && m != []
    ensures a in m[1..] <==> a in m && a != m[0]
  {
    if a in m && a != m[0] {
      var i :| 0 <= i < |m| && m[i] == a;
      assert m[1..][i - 1] == a;
    }
  }

  /** The relation determines the ranges. */
  lemma RangesUnique(rel: seq<Entry>, m1: seq<Affinity>, m2: seq<Affinity>)
    requires ExactRanges(rel, m1) && ExactRanges(rel, m2)
    ensures m1 == m2
  {
    forall a ensures a in m1 <==> a in m2 {
      if a in m1 { SameRange(rel, m1, m2, a); }
      if a in m2 { SameRange(rel, m2, m1, a); }
    }
    SameTable(m1, m2);
  }

  // ---- nothing but the recorded ranges matters ----------------------------------------------------------------------

  ghost predicate SameRecords(r1: seq<Entry>, r2: seq<Entry>) { forall key :: Recorded(r1, key) == Recorded(r2, key) }

  lemma UsesSame(r1: seq<Entry>, r2: seq<Entry>, s: Segment, t: nat)
    requires SameRecords(r1, r2)
    ensures Uses(r1, s, t) <==> Uses(r2, s, t)
  {
    if Uses(r1, s, t) {
      var key: Key :| key.tid == t && s in Recorded(r1, key);
      assert s in Recorded(r2, key);
    }
    if Uses(r2, s, t) {
      var key: Key :| key.tid == t && s in Recorded(r2, key);
      assert s in Recorded(r1, key);
    }
  }

  ghost predicate SameUses(r1: seq<Entry>, r2: seq<Entry>) { forall s, t :: Uses(r1, s, t) <==> Uses(r2, s, t) }

  lemma WithinSame(r1: seq<Entry>, r2: seq<Entry>, u: int, v: int, t: nat)
    requires SameUses(r1, r2)
    ensures UsesWithin(r1, u, v, t) <==> UsesWithin(r2, u, v, t)
  {
  }

  lemma TouchesSame(r1: seq<Entry>, r2: seq<Entry>, x: int)
    requires SameUses(r1, r2)
    ensures Touches(r1, x) <==> Touches(r2, x)
  {
  }

  lemma ExactSame(r1: seq<Entry>, r2: seq<Entry>, merged: seq<Affinity>)
    requires SameRecords(r1, r2) && ExactRanges(r1, merged)
    ensures ExactRanges(r2, merged)
  {
    forall s, t ensures Uses(r1, s, t) <==> Uses(r2, s, t) { UsesSame(r1, r2, s, t); }
    forall x ensures HoldByte(merged, x) <==> Touches(r2, x) { TouchesSame(r1, r2, x); }
    forall a, t | a in merged ensures HasBit(a.mask, t) <==> UsesWithin(r2, a.seg.start, a.seg.end, t) {
      WithinSame(r1, r2, a.seg.start, a.seg.end, t);
    }
    forall a, u, v, t | a in merged && Undivided(r2, a.seg, u, v) && HasBit(a.mask, t) ensures UsesWithin(r2, u, v, t) {
      assert Undivided(r1, a.seg, u, v);
      WithinSame(r1, r2, u, v, t);
    }
  }

  // ---- so are groups, places and lines --------------------------------------------------------------------------

  /** The plan follows from the relation. */
  ghost predicate Determined(rel: seq<Entry>, plan: Plan) {
    && ExactRanges(rel, plan.merged)
    && (forall m {:trigger Ranges(plan.groups, m)} :: Ranges(plan.groups, m) == WithMask(plan.merged, m))
  }

  lemma {:induction false} GroupsUnique(g1: seq<Group>, g2: seq<Group>)
    requires MasksSorted(g1) && MasksSorted(g2) && (forall m :: Ranges(g1, m) == Ranges(g2, m))
    requires (forall g :: 0 <= g < |g1| ==> g1[g].segs != []) && (forall g :: 0 <= g < |g2| ==> g2[g].segs != [])
    ensures g1 == g2
  {
    FirstRanges(g1);
    FirstRanges(g2);
    if g1 != [] && g2 != [] {
      SameFirst(g1, g2);
      forall m ensures Ranges(g1[1..], m) == Ranges(g2[1..], m) {
        if m == g1[0].mask {
          NoRanges(g1[1..], m);
          NoRanges(g2[1..], m);
        } else {
          assert Ranges(g1, m) == Ranges(g2, m);
        }
      }
      GroupsUnique(g1[1..], g2[1..]);
    }
  }

  lemma FirstRanges(groups: seq<Group>)
    ensures groups != [] ==> Ranges(groups, groups[0].mask) == groups[0].segs
  {
  }

  lemma SameFirst(g1: seq<Group>, g2: seq<Group>)
    requires MasksSorted(g1) && MasksSorted(g2) && (forall m :: Ranges(g1, m) == Ranges(g2, m)) && g1 != [] && g2 != []
    requires g1[0].segs != [] && g2[0].segs != []
    ensures g1[0] == g2[0]
  {
    var m1, m2 := g1[0].mask, g2[0].mask;
    assert Ranges(g1, m1) == g1[0].segs && Ranges(g2, m2) == g2[0].segs;
    if m1 < m2 { NoRanges(g2, m1); }
    if m2 < m1 { NoRanges(g1, m2); }
  }

  lemma PlaceHas(groups: seq<Group>, p1: map<nat, Segment>, s1: map<nat, (nat, nat)>,
                 p2: map<nat, Segment>, s2: map<nat, (nat, nat)>, k: nat)
    requires Packable(groups) && Placed(groups, p1, s1) && Placed(groups, p2, s2) && k in p1
    ensures k in p2 && p2[k] == p1[k]
  {
    assert k in s1 && KeyPlaced(groups, p1[k], s1[k], k);
    SlotOfStart(groups, p2, s2, s1[k].0, s1[k].1);
  }

  lemma PlaceWithin(groups: seq<Group>, p1: map<nat, Segment>, s1: map<nat, (nat, nat)>,
                    p2: map<nat, Segment>, s2: map<nat, (nat, nat)>)
    requires Packable(groups) && Placed(groups, p1, s1) && Placed(groups, p2, s2)
    ensures forall k :: k in p1 ==> k in p2 && p2[k] == p1[k]
  {
    forall k | k in p1 ensures k in p2 && p2[k] == p1[k] { PlaceHas(groups, p1, s1, p2, s2, k); }
  }

  lemma SameMap(p1: map<nat, Segment>, p2: map<nat, Segment>)
    requires (forall k :: k in p1 ==> k in p2 && p2[k] == p1[k]) && (forall k :: k in p2 ==> k in p1)
    ensures p1 == p2
  {
  }

  lemma PlaceUnique(groups: seq<Group>, p1: map<nat, Segment>, s1: map<nat, (nat, nat)>,
                    p2: map<nat, Segment>, s2: map<nat, (nat, nat)>)
    requires Packable(groups) && Placed(groups, p1, s1) && Placed(groups, p2, s2)
    ensures p1 == p2
  {
    PlaceWithin(groups, p1, s1, p2, s2);
    PlaceWithin(groups, p2, s2, p1, s1);
    SameMap(p1, p2);
  }

  /** The recorded ranges determine the whole plan. */
  lemma PlanUnique(r1: seq<Entry>, r2: seq<Entry>, p1: Plan, p2: Plan)
    requires Sound(p1) && Sound(p2) && SameRecords(r1, r2) && Determined(r1, p1) && Determined(r2, p2)
    ensures p1.merged == p2.merged && p1.groups == p2.groups && p1.place == p2.place
  {
    ExactSame(r1, r2, p1.merged);
    RangesUnique(r2, p1.merged, p2.merged);
    forall m ensures Ranges(p1.groups, m) == Ranges(p2.groups, m) {}
    GroupsUnique(p1.groups, p2.groups);
    PlaceUnique(p1.groups, p1.place, p1.src, p2.place, p2.src);
  }

  /** The lines of a key are determined by its ranges and their places. */
  lemma LinesUnique(place: map<nat, Segment>, segs: seq<Segment>, key: Key, a: seq<Line>, b: seq<Line>)
    requires (forall s :: s in segs ==> Mapped(place, s)) && Describes(place, segs, a) && Describes(place, segs, b)
    requires (forall l :: l in a ==> l.key == key) && (forall l :: l in b ==> l.key == key)
    ensures a == b
  {
    assert |a| == |b|;
    forall r | 0 <= r < |a| ensures a[r] == b[r] {
      assert a[r] in a && b[r] in b;
      assert LineIndex(a, r) == r && LineIndex(b, r) == r;
    }
  }

  // ---- size and separation in terms of the recorded accesses -------------------------------------------------------

  lemma {:induction false} GroupKinds(groups: seq<Group>) returns (kinds: set<nat>)
    requires MasksSorted(groups)
    ensures |kinds| == |groups| && forall m :: m in kinds <==> exists g :: 0 <= g < |groups| && groups[g].mask == m
  {
    kinds := {};
    if groups != [] {
      var n := |groups| - 1;
      var rest := GroupKinds(groups[..n]);
      kinds := rest + {groups[n].mask};
      forall m | m in rest ensures m != groups[n].mask {
        var g :| 0 <= g < n && groups[..n][g].mask == m;
        assert groups[g].mask < groups[n].mask;
      }
      forall m ensures m in kinds <==> exists g :: 0 <= g < |groups| && groups[g].mask == m {
        if m in rest {
          var g :| 0 <= g < n && groups[..n][g].mask == m;
          assert groups[g].mask == m;
        }
        if g :| 0 <= g < n && groups[g].mask == m { assert groups[..n][g].mask == m; }
      }
    }
  }

  ghost predicate HasMask(merged: seq<Affinity>, m: nat) { exists a :: a in merged && a.mask == m }

  lemma KindsOf(plan: Plan) returns (kinds: set<nat>)
    requires Sound(plan)
    ensures |kinds| == |plan.groups| && forall m :: m in kinds <==> HasMask(plan.merged, m)
  {
    kinds := GroupKinds(plan.groups);
    forall m ensures m in kinds <==> HasMask(plan.merged, m) {
      if m in kinds {
        var g :| 0 <= g < |plan.groups| && plan.groups[g].mask == m;
        assert Slot(plan.groups, g, 0);
        assert Affinity(plan.groups[g].segs[0], m) in plan.merged;
      }
      if HasMask(plan.merged, m) {
        var a :| a in plan.merged && a.mask == m;
        var g, s := FindSlot(plan, a);
      }
    }
  }

  /** The bytes that are moved are exactly the recorded ones. */
  lemma CoveredHeld(rel: seq<Entry>, plan: Plan, x: int)
    requires Determined(rel, plan)
    ensures CoveredByte(plan, x) <==> Touches(rel, x)
  {
    if CoveredByte(plan, x) {
      var a :| InRange(plan, a, x);
      assert HoldByte(plan.merged, x);
    }
    if Touches(rel, x) {
      assert HoldByte(plan.merged, x);
      var a :| a in plan.merged && a.seg.Contains(x);
      assert InRange(plan, a, x);
    }
  }

  /** Recorded bytes that hang together by overlapping ranges. */
  ghost predicate Clump(rel: seq<Entry>, u: int, v: int) {
    && u < v && Gap(rel, u) && Gap(rel, v)
    && (forall x :: u <= x < v ==> Touches(rel, x)) && (forall x :: u < x < v ==> !Gap(rel, x))
  }

  lemma {:induction false} GapBelow(rel: seq<Entry>, lo: int, x: int) returns (u: int)
    requires Gap(rel, lo) && lo <= x
    ensures lo <= u <= x && Gap(rel, u) && forall y :: u < y <= x ==> !Gap(rel, y)
    decreases x - lo
  {
    if Gap(rel, x) { u := x; } else { u := GapBelow(rel, lo, x - 1); }
  }

  lemma {:induction false} GapAbove(rel: seq<Entry>, x: int, hi: int) returns (v: int)
    requires Gap(rel, hi) && x < hi
    ensures x < v <= hi && Gap(rel, v) && forall y :: x < y < v ==> !Gap(rel, y)
    decreases hi - x
  {
    if Gap(rel, x + 1) { v := x + 1; } else { v := GapAbove(rel, x + 1, hi); }
  }

  /** Every recorded byte belongs to a clump. */
  lemma ClumpAround(rel: seq<Entry>, merged: seq<Affinity>, x: int) returns (u: int, v: int)
    requires ExactRanges(rel, merged) && Touches(rel, x)
    ensures Clump(rel, u, v) && u <= x < v
  {
    assert HoldByte(merged, x);
    var a :| a in merged && a.seg.Contains(x);
    BorderGap(rel, merged, a);
    u := GapBelow(rel, a.seg.start, x);
    v := GapAbove(rel, x, a.seg.end);
    forall y | u <= y < v ensures Touches(rel, y) { assert HoldByte(merged, y); }
  }

  /** A clump lies in one merged range, which has exactly its threads. */
  lemma ClumpHome(rel: seq<Entry>, merged: seq<Affinity>, u: int, v: int) returns (a: Affinity)
    requires ExactRanges(rel, merged) && Clump(rel, u, v)
    ensures a in merged && a.seg.start <= u && v <= a.seg.end
    ensures forall t :: HasBit(a.mask, t) <==> UsesWithin(rel, u, v, t)
  {
    assert Touches(rel, u);
    assert HoldByte(merged, u);
    a :| a in merged && a.seg.Contains(u);
    BorderGap(rel, merged, a);
    assert v <= a.seg.end;
    assert Undivided(rel, a.seg, u, v);
    forall t ensures HasBit(a.mask, t) <==> UsesWithin(rel, u, v, t) {
      if UsesWithin(rel, u, v, t) {
        var s :| Uses(rel, s, t) && u <= s.start && s.end <= v;
        assert UsesWithin(rel, a.seg.start, a.seg.end, t);
      }
    }
  }

  /** Some clump is used by exactly the threads of the mask. */
  ghost predicate ClumpKind(rel: seq<Entry>, m: nat) {
    exists u, v :: Clump(rel, u, v) && forall t :: HasBit(m, t) <==> UsesWithin(rel, u, v, t)
  }

  lemma KindOfClump(rel: seq<Entry>, merged: seq<Affinity>, m: nat)
    requires ExactRanges(rel, merged)
    ensures HasMask(merged, m) <==> ClumpKind(rel, m)
  {
    if HasMask(merged, m) {
      var a :| a in merged && a.mask == m;
      assert a.seg.Contains(a.seg.start);
      assert HoldByte(merged, a.seg.start);
      var u, v := ClumpAround(rel, merged, a.seg.start);
      var b := ClumpHome(rel, merged, u, v);
      Disjoint(merged, a, b, a.seg.start);
    }
    if ClumpKind(rel, m) {
      var u, v :| Clump(rel, u, v) && forall t :: HasBit(m, t) <==> UsesWithin(rel, u, v, t);
      var a := ClumpHome(rel, merged, u, v);
      SameBits(a.mask, m);
    }
  }

  /** The new size: one byte per recorded byte, and a line between the bytes of different sets of threads. */
  lemma RecordedSize(rel: seq<Entry>, plan: Plan) returns (recorded: set<int>, kinds: set<nat>)
    requires Sound(plan) && Determined(rel, plan)
    ensures (forall x :: x in recorded <==> Touches(rel, x)) && (forall m :: m in kinds <==> ClumpKind(rel, m))
    ensures NewSize(plan.groups) == |recorded| + LINE * (|kinds| - 1)
  {
    recorded := SizeFormula(plan);
    kinds := KindsOf(plan);
    forall x ensures x in recorded <==> Touches(rel, x) { CoveredHeld(rel, plan, x); }
    forall m ensures m in kinds <==> ClumpKind(rel, m) { KindOfClump(rel, plan.merged, m); }
  }

  /** The promise of the repair: bytes of clumps that are not used by the same threads never meet in a cache line,
      whatever address the block is given. */
  lemma ClumpsApart(rel: seq<Entry>, plan: Plan, address: nat, x: int, u: int, v: int, y: int, u': int, v': int, t: nat)
    requires Sound(plan) && Determined(rel, plan) && Clump(rel, u, v) && Clump(rel, u', v') && u <= x < v
    requires u' <= y < v'
    requires UsesWithin(rel, u, v, t) <==> !UsesWithin(rel, u', v', t)
    ensures x >= 0 && y >= 0 && Reloc(plan, x) >= 0 && Reloc(plan, y) >= 0
    ensures (address + Reloc(plan, x)) / LINE != (address + Reloc(plan, y)) / LINE
  {
    var a := ClumpHome(rel, plan.merged, u, v);
    var b := ClumpHome(rel, plan.merged, u', v');
    assert HasBit(a.mask, t) <==> !HasBit(b.mask, t);
    assert InRange(plan, a, x) && InRange(plan, b, y);
    NoLineShared(plan, address, x, a, y, b);
  }
}
