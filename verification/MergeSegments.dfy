/** `Layout::merge_segments` (postprocess/Repair.cpp): turning a sorted table of ranges with
    thread masks into disjoint ranges whose masks are the unions of what they absorbed. */
module MergeSegments {
  import opened Segments
  import opened Masks

  /** One entry of the affinity table `map<Segment, size_t>`. */
  datatype Affinity = Affinity(seg: Segment, mask: nat)

  /** The table as `std::map` iterates it: strictly increasing keys. */
  ghost predicate Table(aff: seq<Affinity>) {
    && (forall i :: 0 <= i < |aff| ==> aff[i].seg.Nonempty())
    && (forall i, j :: 0 <= i < j < |aff| ==> aff[i].seg.Less(aff[j].seg))
  }

  /** Nonempty, ordered and pairwise disjoint. */
  ghost predicate Separated(out: seq<Affinity>) {
    && (forall k :: 0 <= k < |out| ==> out[k].seg.Nonempty())
    && (forall k, l :: 0 <= k < l < |out| ==> out[k].seg.end <= out[l].seg.start)
  }

  ghost predicate BitSource(aff: seq<Affinity>, home: seq<nat>, k: nat, t: nat) {
    exists i :: 0 <= i < |home| <= |aff| && home[i] == k && HasBit(aff[i].mask, t)
  }

  ghost predicate ByteSource(aff: seq<Affinity>, home: seq<nat>, k: nat, x: int) {
    exists i :: 0 <= i < |home| <= |aff| && home[i] == k && aff[i].seg.Contains(x)
  }

  /** Some entry absorbed by output `k` has bytes on both sides of `x`. */
  ghost predicate Straddled(aff: seq<Affinity>, home: seq<nat>, k: nat, x: int) {
    exists i :: 0 <= i < |home| <= |aff| && home[i] == k && aff[i].seg.start < x < aff[i].seg.end
  }

  /** `home[i]` is the output that absorbed entry `i`. */
  ghost predicate Homes(aff: seq<Affinity>, home: seq<nat>, out: seq<Affinity>) {
    && |home| <= |aff|
    && (forall i :: 0 <= i < |home| ==> home[i] < |out|)
    && (forall i :: 0 <= i < |home| ==> aff[i].seg.Inside(out[home[i]].seg))
    && (forall i, t :: 0 <= i < |home| && HasBit(aff[i].mask, t) ==> HasBit(out[home[i]].mask, t))
  }

  /** Outputs hold nothing that no absorbed entry brought in. */
  ghost predicate Tight(aff: seq<Affinity>, home: seq<nat>, out: seq<Affinity>) {
    && (forall k, t :: 0 <= k < |out| && HasBit(out[k].mask, t) ==> BitSource(aff, home, k, t))
    && (forall k, x :: 0 <= k < |out| && out[k].seg.Contains(x) ==> ByteSource(aff, home, k, x))
  }

  ghost predicate AllStraddled(aff: seq<Affinity>, home: seq<nat>, out: seq<Affinity>) {
    forall k, x :: 0 <= k < |out| && out[k].seg.start < x < out[k].seg.end ==> Straddled(aff, home, k, x)
  }

  /** The first pass: overlapping entries are united. */
  method JoinOverlaps(aff: seq<Affinity>) returns (stack: seq<Affinity>, ghost home: seq<nat>)
    requires aff != [] && Table(aff)
    ensures |home| == |aff| && Homes(aff, home, stack) && Tight(aff, home, stack)
    ensures stack != [] && Separated(stack) && AllStraddled(aff, home, stack)
  {
    stack, home := [aff[0]], [0];
    FirstEntry(aff);
    for i := 1 to |aff|
      invariant |home| == i && Homes(aff, home, stack) && Tight(aff, home, stack)
      invariant stack != [] && Separated(stack) && AllStraddled(aff, home, stack)
      invariant stack[|stack| - 1].seg.start <= aff[i - 1].seg.start
    {
      var top, next := stack[|stack| - 1], aff[i];
      assert aff[i - 1].seg.Less(next.seg);
      if top.seg.Overlap(next.seg) {
        var end := if top.seg.end >= next.seg.end then top.seg.end else next.seg.end;
        ExtendTop(aff, home, stack, end);
        ExtendStraddled(aff, home, stack, end);
        stack, home := Absorb(stack, end, next.mask), home + [|stack| - 1];
      } else {
        PushNext(aff, home, stack);
        PushStraddled(aff, home, stack);
        stack, home := stack + [next], home + [|stack|];
      }
    }
  }

  lemma FirstEntry(aff: seq<Affinity>)
    requires aff != [] && Table(aff)
    ensures Homes(aff, [0], [aff[0]]) && Tight(aff, [0], [aff[0]]) && AllStraddled(aff, [0], [aff[0]])
    ensures Separated([aff[0]])
  {
    var home: seq<nat> := [0];
    assert home[0] == 0;
  }

  lemma SourcesGrow(aff: seq<Affinity>, home: seq<nat>, h: nat, k: nat)
    requires |home| < |aff|
    ensures forall t :: BitSource(aff, home, k, t) ==> BitSource(aff, home + [h], k, t)
    ensures forall x :: ByteSource(aff, home, k, x) ==> ByteSource(aff, home + [h], k, x)
    ensures forall x :: Straddled(aff, home, k, x) ==> Straddled(aff, home + [h], k, x)
  {
    var home' := home + [h];
    forall t | BitSource(aff, home, k, t) ensures BitSource(aff, home', k, t) {
      var i :| 0 <= i < |home| && home[i] == k && HasBit(aff[i].mask, t);
      assert home'[i] == k;
    }
    forall x | ByteSource(aff, home, k, x) ensures ByteSource(aff, home', k, x) {
      var i :| 0 <= i < |home| && home[i] == k && aff[i].seg.Contains(x);
      assert home'[i] == k;
    }
    forall x | Straddled(aff, home, k, x) ensures Straddled(aff, home', k, x) {
      var i :| 0 <= i < |home| && home[i] == k && aff[i].seg.start < x < aff[i].seg.end;
      assert home'[i] == k;
    }
  }

  /** The next entry starts a new output. */
  lemma PushNext(aff: seq<Affinity>, home: seq<nat>, out: seq<Affinity>)
    requires |home| < |aff|
    requires Homes(aff, home, out) && Tight(aff, home, out)
    ensures var out' := out + [aff[|home|]]; var home' := home + [|out|];
            Homes(aff, home', out') && Tight(aff, home', out')
  {
    var out', home' := out + [aff[|home|]], home + [|out|];
    assert home'[|home|] == |out|;
    forall k | 0 <= k < |out'|
      ensures forall t :: HasBit(out'[k].mask, t) ==> BitSource(aff, home', k, t)
      ensures forall x :: out'[k].seg.Contains(x) ==> ByteSource(aff, home', k, x)
    {
      if k < |out| { SourcesGrow(aff, home, |out|, k); }
    }
  }

  lemma PushStraddled(aff: seq<Affinity>, home: seq<nat>, out: seq<Affinity>)
    requires |home| < |aff| && AllStraddled(aff, home, out)
    ensures AllStraddled(aff, home + [|out|], out + [aff[|home|]])
  {
    var out', home' := out + [aff[|home|]], home + [|out|];
    assert home'[|home|] == |out|;
    forall k | 0 <= k < |out'|
      ensures forall x :: out'[k].seg.start < x < out'[k].seg.end ==> Straddled(aff, home', k, x)
    {
      if k < |out| { SourcesGrow(aff, home, |out|, k); }
    }
  }

  /** The top of the stack after it has absorbed an entry of mask `mask`. */
  function Absorb(out: seq<Affinity>, end: nat, mask: nat): seq<Affinity>
    requires out != []
  {
    var n := |out| - 1;
    out[n := Affinity(Segment(out[n].seg.start, end), Or(out[n].mask, mask))]
  }

  /** `end` is the larger of the two ends, and the entry does not start past the top. */
  ghost predicate Meets(top: Segment, next: Segment, end: nat) {
    && top.start <= next.start <= top.end
    && top.end <= end && next.end <= end && (end == top.end || end == next.end)
  }

  /** The next entry meets the top of the stack: the top absorbs it. */
  lemma ExtendTop(aff: seq<Affinity>, home: seq<nat>, out: seq<Affinity>, end: nat)
    requires |home| < |aff| && out != []
    requires Homes(aff, home, out) && Tight(aff, home, out)
    requires Meets(out[|out| - 1].seg, aff[|home|].seg, end)
    ensures var out' := Absorb(out, end, aff[|home|].mask);
            Homes(aff, home + [|out| - 1], out') && Tight(aff, home + [|out| - 1], out')
  {
    var n, next := |out| - 1, aff[|home|];
    var out', home' := Absorb(out, end, next.mask), home + [n];
    assert home'[|home|] == n;
    forall t ensures HasBit(out'[n].mask, t) <==> HasBit(out[n].mask, t) || HasBit(next.mask, t) {
      OrHas(out[n].mask, next.mask, t);
    }
    forall k | 0 <= k < |out'|
      ensures forall t :: HasBit(out'[k].mask, t) ==> BitSource(aff, home', k, t)
      ensures forall x :: out'[k].seg.Contains(x) ==> ByteSource(aff, home', k, x)
    {
      SourcesGrow(aff, home, n, k);
      if k == n {
        forall x | out'[k].seg.Contains(x) ensures ByteSource(aff, home', k, x) {
          if out[k].seg.Contains(x) {} else { assert next.seg.Contains(x); }
        }
      }
    }
  }

  lemma ExtendStraddled(aff: seq<Affinity>, home: seq<nat>, out: seq<Affinity>, end: nat)
    requires |home| < |aff| && out != [] && AllStraddled(aff, home, out)
    requires Meets(out[|out| - 1].seg, aff[|home|].seg, end) && aff[|home|].seg.start < out[|out| - 1].seg.end
    ensures AllStraddled(aff, home + [|out| - 1], Absorb(out, end, aff[|home|].mask))
  {
    var n, next := |out| - 1, aff[|home|];
    var out', home' := Absorb(out, end, next.mask), home + [n];
    assert home'[|home|] == n;
    forall k, x | 0 <= k < |out'| && out'[k].seg.start < x < out'[k].seg.end ensures Straddled(aff, home', k, x) {
      SourcesGrow(aff, home, n, k);
      if out[k].seg.start < x < out[k].seg.end {} else { assert next.seg.start < x < next.seg.end; }
    }
  }

  /** Every absorbed entry has exactly the mask of the output that absorbed it. */
  ghost predicate SameMasks(aff: seq<Affinity>, home: seq<nat>, out: seq<Affinity>)
    requires Homes(aff, home, out)
  {
    forall i :: 0 <= i < |home| ==> aff[i].mask == out[home[i]].mask
  }

  /** No range touches a successor of equal mask. */
  ghost predicate Reduced(out: seq<Affinity>) {
    forall k :: 0 < k < |out| ==> !(out[k - 1].seg.Touch(out[k].seg) && out[k - 1].mask == out[k].mask)
  }

  /** What the second pass keeps after `|home|` entries. */
  ghost predicate Touched(stack: seq<Affinity>, home: seq<nat>, out: seq<Affinity>) {
    && 0 < |home| <= |stack| && Homes(stack, home, out) && Tight(stack, home, out) && SameMasks(stack, home, out)
    && out != [] && Separated(out) && Reduced(out)
    && out[|out| - 1].seg.end == stack[|home| - 1].seg.end
  }

  lemma TouchShape(stack: seq<Affinity>, home: seq<nat>, out: seq<Affinity>)
    requires Separated(stack) && Touched(stack, home, out) && |home| < |stack|
    requires var top, next := out[|out| - 1], stack[|home|]; top.seg.Touch(next.seg) && top.mask == next.mask
    ensures var next := stack[|home|];
            var out' := Absorb(out, next.seg.end, next.mask);
            Separated(out') && Reduced(out') && out'[|out| - 1].mask == next.mask
              && out'[|out| - 1].seg.end == next.seg.end
  {
    OrSame(stack[|home|].mask);
  }

  lemma TouchAbsorbs(stack: seq<Affinity>, home: seq<nat>, out: seq<Affinity>)
    requires Separated(stack) && Touched(stack, home, out) && |home| < |stack|
    requires var top, next := out[|out| - 1], stack[|home|]; top.seg.Touch(next.seg) && top.mask == next.mask
    ensures var next := stack[|home|]; Touched(stack, home + [|out| - 1], Absorb(out, next.seg.end, next.mask))
  {
    ExtendTop(stack, home, out, stack[|home|].seg.end);
    TouchShape(stack, home, out);
  }

  lemma TouchPushes(stack: seq<Affinity>, home: seq<nat>, out: seq<Affinity>)
    requires Separated(stack) && Touched(stack, home, out) && |home| < |stack|
    requires var top, next := out[|out| - 1], stack[|home|]; !(top.seg.Touch(next.seg) && top.mask == next.mask)
    ensures Touched(stack, home + [|out|], out + [stack[|home|]])
  {
    PushNext(stack, home, out);
  }

  /** The second pass: touching neighbours of equal mask are united. */
  method JoinTouches(stack: seq<Affinity>) returns (out: seq<Affinity>, ghost home: seq<nat>)
    requires stack != [] && Separated(stack)
    ensures |home| == |stack| && Homes(stack, home, out) && Tight(stack, home, out) && SameMasks(stack, home, out)
    ensures out != [] && Separated(out) && Reduced(out)
  {
    out, home := [stack[0]], [0];
    assert Tight(stack, home, out) by { assert home[0] == 0; }
    for i := 1 to |stack|
      invariant |home| == i && Touched(stack, home, out)
    {
      var top, next := out[|out| - 1], stack[i];
      if top.seg.Touch(next.seg) && top.mask == next.mask {
        TouchAbsorbs(stack, home, out);
        out, home := Absorb(out, next.seg.end, next.mask), home + [|out| - 1];
      } else {
        TouchPushes(stack, home, out);
        out, home := out + [next], home + [|out|];
      }
    }
  }

  lemma OrSame(m: nat)
    ensures Or(m, m) == m
  {
    forall t ensures HasBit(Or(m, m), t) <==> HasBit(m, t) { OrHas(m, m, t); }
    SameBits(Or(m, m), m);
  }

  ghost predicate BitBefore(aff: seq<Affinity>, home: seq<nat>, k: nat, x: int, t: nat) {
    exists i :: 0 <= i < |home| <= |aff| && home[i] == k && aff[i].seg.end <= x && HasBit(aff[i].mask, t)
  }

  ghost predicate BitAfter(aff: seq<Affinity>, home: seq<nat>, k: nat, x: int, t: nat) {
    exists i :: 0 <= i < |home| <= |aff| && home[i] == k && x <= aff[i].seg.start && HasBit(aff[i].mask, t)
  }

  /** No range was joined without need: at every interior point of an output either an entry
      straddles the point, or both sides are used by exactly the threads of the output. */
  ghost predicate Needed(aff: seq<Affinity>, home: seq<nat>, out: seq<Affinity>) {
    forall k, x :: 0 <= k < |out| && out[k].seg.start < x < out[k].seg.end ==>
      Straddled(aff, home, k, x) || EvenSplit(aff, home, out, k, x)
  }

  ghost predicate EvenSplit(aff: seq<Affinity>, home: seq<nat>, out: seq<Affinity>, k: nat, x: int)
    requires k < |out|
  {
    forall t :: HasBit(out[k].mask, t) ==> BitBefore(aff, home, k, x, t) && BitAfter(aff, home, k, x, t)
  }

  /** No entry has bytes on both sides of `x`. */
  ghost predicate Unbroken(aff: seq<Affinity>, x: int) {
    forall i :: 0 <= i < |aff| ==> !(aff[i].seg.start < x < aff[i].seg.end)
  }

  /** A part of `seg` that no entry leaves. */
  ghost predicate Cell(aff: seq<Affinity>, seg: Segment, u: int, v: int) {
    seg.start <= u < v <= seg.end && Unbroken(aff, u) && Unbroken(aff, v)
  }

  ghost predicate BitWithin(aff: seq<Affinity>, home: seq<nat>, k: nat, u: int, v: int, t: nat) {
    exists i :: 0 <= i < |home| <= |aff| && home[i] == k && u <= aff[i].seg.start && aff[i].seg.end <= v
                && HasBit(aff[i].mask, t)
  }

  /** In every such part of an output all its threads are at work. */
  ghost predicate EvenCells(aff: seq<Affinity>, home: seq<nat>, out: seq<Affinity>) {
    forall k, u, v, t :: 0 <= k < |out| && Cell(aff, out[k].seg, u, v) && HasBit(out[k].mask, t) ==>
      BitWithin(aff, home, k, u, v, t)
  }

  method Merge(aff: seq<Affinity>) returns (merged: seq<Affinity>, ghost home: seq<nat>)
    requires aff != [] && Table(aff)
    ensures |home| == |aff| && Homes(aff, home, merged) && Tight(aff, home, merged)
    ensures Needed(aff, home, merged) && EvenCells(aff, home, merged)
    ensures merged != [] && Separated(merged) && Reduced(merged)
  {
    var stack, home1 := JoinOverlaps(aff);
    ghost var home2;
    merged, home2 := JoinTouches(stack);
    home := seq(|home1|, i requires 0 <= i < |home1| => home2[home1[i]]);
    HomesCompose(aff, home1, stack, home2, merged, home);
    TightCompose(aff, home1, stack, home2, merged, home);
    NeededCompose(aff, home1, stack, home2, merged, home);
    CellsCompose(aff, home1, stack, home2, merged, home);
  }

  ghost predicate Composed(home1: seq<nat>, home2: seq<nat>, home: seq<nat>) {
    && |home| == |home1|
    && (forall i :: 0 <= i < |home1| ==> home1[i] < |home2| && home[i] == home2[home1[i]])
  }

  lemma HomesCompose(aff: seq<Affinity>, home1: seq<nat>, stack: seq<Affinity>, home2: seq<nat>, out: seq<Affinity>,
                     home: seq<nat>)
    requires |home1| == |aff| && |home2| == |stack| && Composed(home1, home2, home)
    requires Homes(aff, home1, stack) && Homes(stack, home2, out)
    ensures Homes(aff, home, out)
  {
  }

  lemma TightCompose(aff: seq<Affinity>, home1: seq<nat>, stack: seq<Affinity>, home2: seq<nat>, out: seq<Affinity>,
                     home: seq<nat>)
    requires |home1| == |aff| && |home2| == |stack| && Composed(home1, home2, home)
    requires Tight(aff, home1, stack) && Tight(stack, home2, out)
    ensures Tight(aff, home, out)
  {
    forall k, t | 0 <= k < |out| && HasBit(out[k].mask, t) ensures BitSource(aff, home, k, t) {
      assert BitSource(stack, home2, k, t);
      var j :| 0 <= j < |home2| && home2[j] == k && HasBit(stack[j].mask, t);
      assert BitSource(aff, home1, j, t);
      var i :| 0 <= i < |home1| && home1[i] == j && HasBit(aff[i].mask, t);
      assert home[i] == k;
    }
    forall k, x | 0 <= k < |out| && out[k].seg.Contains(x) ensures ByteSource(aff, home, k, x) {
      assert ByteSource(stack, home2, k, x);
      var j :| 0 <= j < |home2| && home2[j] == k && stack[j].seg.Contains(x);
      assert ByteSource(aff, home1, j, x);
      var i :| 0 <= i < |home1| && home1[i] == j && aff[i].seg.Contains(x);
      assert home[i] == k;
    }
  }

  lemma StraddledLift(aff: seq<Affinity>, home1: seq<nat>, home2: seq<nat>, home: seq<nat>, r: nat, x: int)
    requires |home1| == |aff| && r < |home2| && Composed(home1, home2, home) && Straddled(aff, home1, r, x)
    ensures Straddled(aff, home, home2[r], x)
  {
    var i :| 0 <= i < |home1| && home1[i] == r && aff[i].seg.start < x < aff[i].seg.end;
    assert home[i] == home2[r];
  }

  lemma BitLift(aff: seq<Affinity>, home1: seq<nat>, stack: seq<Affinity>, home2: seq<nat>, home: seq<nat>, j: nat,
                x: int, t: nat)
    requires |home1| == |aff| && |home2| == |stack| && j < |stack| && Composed(home1, home2, home)
    requires Homes(aff, home1, stack) && BitSource(aff, home1, j, t)
    ensures stack[j].seg.end <= x ==> BitBefore(aff, home, home2[j], x, t)
    ensures x <= stack[j].seg.start ==> BitAfter(aff, home, home2[j], x, t)
  {
    var i :| 0 <= i < |home1| && home1[i] == j && HasBit(aff[i].mask, t);
    assert home[i] == home2[j] && aff[i].seg.Inside(stack[j].seg);
  }

  /** Entries of the first pass on both sides of a point inside output `k`. */
  lemma SplitAt(stack: seq<Affinity>, home2: seq<nat>, out: seq<Affinity>, k: nat, x: int) returns (l: nat, r: nat)
    requires |home2| == |stack| && k < |out| && out[k].seg.start < x < out[k].seg.end
    requires Separated(stack) && Tight(stack, home2, out)
    ensures l < |stack| && home2[l] == k && stack[l].seg.Contains(x - 1)
    ensures r < |stack| && home2[r] == k && stack[r].seg.Contains(x)
    ensures stack[r].seg.start < x || stack[l].seg.end <= x
  {
    assert out[k].seg.Contains(x) && out[k].seg.Contains(x - 1);
    assert ByteSource(stack, home2, k, x) && ByteSource(stack, home2, k, x - 1);
    r :| 0 <= r < |home2| && home2[r] == k && stack[r].seg.Contains(x);
    l :| 0 <= l < |home2| && home2[l] == k && stack[l].seg.Contains(x - 1);
  }

  lemma NeededCompose(aff: seq<Affinity>, home1: seq<nat>, stack: seq<Affinity>, home2: seq<nat>, out: seq<Affinity>,
                      home: seq<nat>)
    requires |home1| == |aff| && |home2| == |stack| && Composed(home1, home2, home)
    requires Homes(aff, home1, stack) && Tight(aff, home1, stack) && AllStraddled(aff, home1, stack)
    requires Separated(stack) && Homes(stack, home2, out) && Tight(stack, home2, out) && SameMasks(stack, home2, out)
    ensures Needed(aff, home, out)
  {
    forall k, x | 0 <= k < |out| && out[k].seg.start < x < out[k].seg.end
      ensures Straddled(aff, home, k, x) || EvenSplit(aff, home, out, k, x)
    {
      var l, r := SplitAt(stack, home2, out, k, x);
      if stack[r].seg.start < x {
        assert stack[r].seg.start < x < stack[r].seg.end;
        StraddledLift(aff, home1, home2, home, r, x);
      } else {
        forall t | HasBit(out[k].mask, t) ensures BitBefore(aff, home, k, x, t) && BitAfter(aff, home, k, x, t) {
          assert HasBit(stack[l].mask, t) && HasBit(stack[r].mask, t);
          BitLift(aff, home1, stack, home2, home, l, x, t);
          BitLift(aff, home1, stack, home2, home, r, x, t);
        }
      }
    }
  }

  /** The entry of the first pass that begins at an unbroken point. */
  lemma CellAt(aff: seq<Affinity>, home1: seq<nat>, stack: seq<Affinity>, home2: seq<nat>, out: seq<Affinity>, k: nat,
               u: int, v: int) returns (j: nat)
    requires |home1| == |aff| && |home2| == |stack| && k < |out| && Cell(aff, out[k].seg, u, v)
    requires AllStraddled(aff, home1, stack) && Tight(stack, home2, out)
    ensures j < |stack| && home2[j] == k && u <= stack[j].seg.start && stack[j].seg.end <= v
  {
    assert out[k].seg.Contains(u);
    assert ByteSource(stack, home2, k, u);
    j :| 0 <= j < |home2| && home2[j] == k && stack[j].seg.Contains(u);
    forall x | stack[j].seg.start < x < stack[j].seg.end ensures !Unbroken(aff, x) {
      assert Straddled(aff, home1, j, x);
    }
  }

  lemma CellsCompose(aff: seq<Affinity>, home1: seq<nat>, stack: seq<Affinity>, home2: seq<nat>, out: seq<Affinity>,
                     home: seq<nat>)
    requires |home1| == |aff| && |home2| == |stack| && Composed(home1, home2, home)
    requires Homes(aff, home1, stack) && Tight(aff, home1, stack) && AllStraddled(aff, home1, stack)
    requires Homes(stack, home2, out) && Tight(stack, home2, out) && SameMasks(stack, home2, out)
    ensures EvenCells(aff, home, out)
  {
    forall k, u, v, t | 0 <= k < |out| && Cell(aff, out[k].seg, u, v) && HasBit(out[k].mask, t)
      ensures BitWithin(aff, home, k, u, v, t)
    {
      var j := CellAt(aff, home1, stack, home2, out, k, u, v);
      assert HasBit(stack[j].mask, t);
      assert BitSource(aff, home1, j, t);
      var i :| 0 <= i < |home1| && home1[i] == j && HasBit(aff[i].mask, t);
      assert home[i] == k && aff[i].seg.Inside(stack[j].seg);
    }
  }
}
