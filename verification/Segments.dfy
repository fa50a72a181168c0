/** Byte ranges and thread masks, the vocabulary of the layout repair pass
    (postprocess/Utils.h). */
module Segments {
  import opened Sorting

  /** A half-open byte range. */
  datatype Segment = Segment(start: nat, end: nat) {
    predicate Nonempty() { start < end }

    predicate Contains(x: int) { start <= x < end }

    predicate Inside(outer: Segment) { outer.start <= start && end <= outer.end }

    /** The ordering of `std::map<Segment, ...>` keys. */
    predicate Less(rhs: Segment) {
      start < rhs.start || (start == rhs.start && end < rhs.end)
    }

    predicate Overlap(rhs: Segment) {
      (start < rhs.end && end > rhs.start) || (rhs.start < end && rhs.end > start)
    }

    predicate Touch(rhs: Segment) { end == rhs.start }
  }

  predicate AllNonempty(segs: seq<Segment>) {
    forall s :: s in segs ==> s.Nonempty()
  }

  ghost predicate Covered(segs: seq<Segment>, x: int) {
    exists s :: s in segs && s.Contains(x)
  }

  predicate SortedSegs(segs: seq<Segment>) {
    forall i :: 0 < i < |segs| ==> !segs[i].Less(segs[i - 1])
  }

  predicate StartsSorted(segs: seq<Segment>) {
    forall i :: 0 < i < |segs| ==> segs[i - 1].start <= segs[i].start
  }

  /** `seg` lies inside some range of `segs`. */
  ghost predicate InsideSome(seg: Segment, segs: seq<Segment>) {
    exists s :: s in segs && seg.Inside(s)
  }

  predicate SegmentBefore(a: Segment, b: Segment) { a.Less(b) }

  /** `std::sort` on a vector of ranges. */
  function Sorted(segs: seq<Segment>): (r: seq<Segment>)
    ensures SortedSegs(r)
    ensures multiset(r) == multiset(segs)
  {
    SortContents(SegmentBefore, segs);
    Sort(SegmentBefore, segs)
  }

  lemma SortedMembers(segs: seq<Segment>)
    ensures forall x :: x in Sorted(segs) <==> x in segs
  {
    forall x ensures x in Sorted(segs) <==> x in segs {
      assert x in Sorted(segs) <==> x in multiset(Sorted(segs));
      assert x in segs <==> x in multiset(segs);
    }
  }

  /** What joining ranges may do: coverage is unchanged and every input range lies inside
      an output range. */
  ghost predicate Joins(segs: seq<Segment>, ret: seq<Segment>) {
    && AllNonempty(ret)
    && (forall x :: Covered(ret, x) <==> Covered(segs, x))
    && (forall s :: s in segs ==> InsideSome(s, ret))
  }

  /** A range is put in front. */
  lemma JoinsPut(seg: Segment, segs: seq<Segment>, ret: seq<Segment>)
    requires Joins(segs, ret) && seg.Nonempty()
    ensures Joins([seg] + segs, [seg] + ret)
  {
    CoveredPut(seg, segs);
    CoveredPut(seg, ret);
    assert seg in [seg] + ret;
    forall s | s in [seg] + segs ensures InsideSome(s, [seg] + ret) {
      if s in segs {
        assert InsideSome(s, ret);
        var o :| o in ret && s.Inside(o);
        assert o in [seg] + ret;
      } else {
        assert s.Inside(seg);
      }
    }
  }

  /** A joined range may be taken apart again. */
  lemma JoinsSplit(a: Segment, b: Segment, segs: seq<Segment>, ret: seq<Segment>)
    requires a.Nonempty() && b.Nonempty() && a.Touch(b) && Joins([Segment(a.start, b.end)] + segs, ret)
    ensures Joins([a] + ([b] + segs), ret)
  {
    var big := Segment(a.start, b.end);
    CoveredPut(big, segs);
    CoveredPut(b, segs);
    CoveredPut(a, [b] + segs);
    assert big in [big] + segs;
    forall s | s in [a] + ([b] + segs) ensures InsideSome(s, ret) {
      if s in segs { assert s in [big] + segs; } else {
        assert InsideSome(big, ret);
        var o :| o in ret && big.Inside(o);
        assert s.Inside(o);
      }
    }
  }

  lemma CoveredPut(seg: Segment, segs: seq<Segment>)
    ensures forall x :: Covered([seg] + segs, x) <==> Covered(segs, x) || seg.Contains(x)
  {
    assert seg in [seg] + segs;
  }

  /** `last` and what follows it, touching neighbours joined from left to right. */
  function ChainedFrom(last: Segment, rest: seq<Segment>): seq<Segment>
    decreases |rest|
  {
    if rest == [] then [last]
    else if last.Touch(rest[0]) then ChainedFrom(Segment(last.start, rest[0].end), rest[1..])
    else [last] + ChainedFrom(rest[0], rest[1..])
  }

  function Chained(segs: seq<Segment>): seq<Segment> { if segs == [] then [] else ChainedFrom(segs[0], segs[1..]) }

  predicate NoneTouch(ret: seq<Segment>) { forall k :: 0 < k < |ret| ==> !ret[k - 1].Touch(ret[k]) }

  lemma {:induction false} ChainedJoins(last: Segment, rest: seq<Segment>)
    requires last.Nonempty() && AllNonempty(rest)
    ensures Joins([last] + rest, ChainedFrom(last, rest))
    decreases |rest|
  {
    if rest == [] {
      assert [last] + rest == [last] && last in [last] && last.Inside(last);
    } else {
      var b, tail := rest[0], rest[1..];
      assert rest == [b] + tail && b in rest;
      if last.Touch(b) {
        ChainedJoins(Segment(last.start, b.end), tail);
        JoinsSplit(last, b, tail, ChainedFrom(last, rest));
      } else {
        ChainedJoins(b, tail);
        JoinsPut(last, rest, ChainedFrom(b, tail));
      }
    }
  }

  lemma {:induction false} ChainedApart(last: Segment, rest: seq<Segment>)
    requires last.Nonempty() && AllNonempty(rest)
    ensures ChainedFrom(last, rest) != [] && ChainedFrom(last, rest)[0].start == last.start
    ensures NoneTouch(ChainedFrom(last, rest))
    decreases |rest|
  {
    if rest != [] {
      assert rest[0] in rest;
      if last.Touch(rest[0]) {
        ChainedApart(Segment(last.start, rest[0].end), rest[1..]);
      } else {
        ChainedApart(rest[0], rest[1..]);
      }
    }
  }

  lemma {:induction false} ChainedSorted(last: Segment, rest: seq<Segment>)
    requires last.Nonempty() && AllNonempty(rest) && StartsSorted(rest) && (rest != [] ==> last.start <= rest[0].start)
    ensures StartsSorted(ChainedFrom(last, rest))
    decreases |rest|
  {
    if rest != [] {
      var b, tail := rest[0], rest[1..];
      assert b in rest && (tail != [] ==> rest[0].start <= rest[1].start);
      forall i | 0 < i < |tail| ensures tail[i - 1].start <= tail[i].start {
        assert rest[i].start <= rest[i + 1].start;
      }
      if last.Touch(b) {
        ChainedSorted(Segment(last.start, b.end), tail);
      } else {
        ChainedSorted(b, tail);
        ChainedApart(b, tail);
      }
    }
  }

  /** What joining does to any list, and to a sorted one. */
  lemma ChainedKeeps(segs: seq<Segment>)
    requires AllNonempty(segs)
    ensures Joins(segs, Chained(segs)) && NoneTouch(Chained(segs))
    ensures StartsSorted(segs) ==> StartsSorted(Chained(segs))
  {
    if segs != [] {
      var last, rest := segs[0], segs[1..];
      assert segs == [last] + rest;
      ChainedJoins(last, rest);
      ChainedApart(last, rest);
      if StartsSorted(segs) {
        assert rest != [] ==> segs[0].start <= segs[1].start;
        forall i | 0 < i < |rest| ensures rest[i - 1].start <= rest[i].start {
          assert segs[i].start <= segs[i + 1].start;
        }
        ChainedSorted(last, rest);
      }
    }
  }

  method JoinLoop(segs: seq<Segment>) returns (ret: seq<Segment>)
    requires segs != []
    ensures ret == Chained(segs)
  {
    ret := [];
    var last := segs[0];
    for i := 1 to |segs|
      invariant Chained(segs) == ret + ChainedFrom(last, segs[i..])
    {
      assert segs[i..][1..] == segs[i + 1..];
      if last.Touch(segs[i]) {
        last := Segment(last.start, segs[i].end);
      } else {
        ret := ret + [last];
        last := segs[i];
      }
    }
    ret := ret + [last];
  }

  method MergeNeighbors(segs: seq<Segment>) returns (ret: seq<Segment>)
    requires AllNonempty(segs)
    ensures Joins(segs, ret)
    ensures forall k :: 0 < k < |ret| ==> !ret[k - 1].Touch(ret[k])
    ensures StartsSorted(segs) ==> StartsSorted(ret)
    ensures ret == Chained(segs)
  {
    ret := [];
    if segs != [] { ret := JoinLoop(segs); }
    ChainedKeeps(segs);
  }
}

/** Thread masks: `1 << thread`, `|` and bit membership on an unsigned word. */
module Masks {
  function Bit(t: nat): (m: nat)
    ensures m > 0
  {
    if t == 0 then 1 else 2 * Bit(t - 1)
  }

  function Or(a: nat, b: nat): nat {
    if a == 0 && b == 0 then 0
    else (if a % 2 == 1 || b % 2 == 1 then 1 else 0) + 2 * Or(a / 2, b / 2)
  }

  predicate HasBit(m: nat, t: nat) {
    if t == 0 then m % 2 == 1 else HasBit(m / 2, t - 1)
  }

  lemma {:induction false} BitHas(t: nat, u: nat)
    ensures HasBit(Bit(t), u) <==> t == u
  {
    if t == 0 && u > 0 { ZeroHas(u - 1); }
    else if t > 0 && u > 0 { BitHas(t - 1, u - 1); }
  }

  lemma {:induction false} ZeroHas(u: nat)
    ensures !HasBit(0, u)
  {
    if u > 0 { ZeroHas(u - 1); }
  }

  lemma {:induction false} OrHas(a: nat, b: nat, t: nat)
    ensures HasBit(Or(a, b), t) <==> HasBit(a, t) || HasBit(b, t)
  {
    if a == 0 && b == 0 { ZeroHas(t); }
    else if t > 0 { OrHas(a / 2, b / 2, t - 1); }
  }

  /** A mask is determined by its bits. */
  lemma {:induction false} SameBits(a: nat, b: nat)
    requires forall t :: HasBit(a, t) <==> HasBit(b, t)
    ensures a == b
  {
    if a == 0 && b == 0 { return; }
    assert HasBit(a, 0) <==> HasBit(b, 0);
    forall t: nat ensures HasBit(a / 2, t) <==> HasBit(b / 2, t) {
      assert HasBit(a, t + 1) <==> HasBit(b, t + 1);
    }
    SameBits(a / 2, b / 2);
  }
}
