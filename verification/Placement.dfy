/** Grouping merged ranges by thread mask and packing the groups a cache line apart
    (`Layout::compute`, `Layout::calc_remapping`, postprocess/Repair.cpp). */
module Placement {
  import opened Segments
  import opened MergeSegments

  const LINE: nat := 64   // 1 << CACHELINE_BIT, with CACHELINE_BIT 6

  /** One entry of `map<size_t, vector<Segment>>`. */
  datatype Group = Group(mask: nat, segs: seq<Segment>)

  predicate MasksSorted(groups: seq<Group>) {
    forall g, h :: 0 <= g < h < |groups| ==> groups[g].mask < groups[h].mask
  }

  /** `thread_grouped[mask].push_back(seg)`. */
  function AddToGroup(groups: seq<Group>, mask: nat, seg: Segment): (r: seq<Group>)
    requires MasksSorted(groups)
    ensures MasksSorted(r)
    ensures r != [] && (r[0].mask == mask || (groups != [] && r[0].mask == groups[0].mask && r[0].mask < mask))
  {
    if groups == [] || mask < groups[0].mask then [Group(mask, [seg])] + groups
    else if groups[0].mask == mask then [Group(mask, groups[0].segs + [seg])] + groups[1..]
    else [groups[0]] + AddToGroup(groups[1..], mask, seg)
  }

  lemma {:induction false} AddToGroupRanges(groups: seq<Group>, mask: nat, seg: Segment, m: nat)
    requires MasksSorted(groups)
    ensures Ranges(AddToGroup(groups, mask, seg), m) == Ranges(groups, m) + if m == mask then [seg] else []
  {
    var r := AddToGroup(groups, mask, seg);
    if groups == [] || mask < groups[0].mask {
      assert r[1..] == groups;
      NoRanges(groups, mask);
    } else if groups[0].mask == mask {
      assert r[1..] == groups[1..];
    } else {
      assert r[1..] == AddToGroup(groups[1..], mask, seg);
      AddToGroupRanges(groups[1..], mask, seg, m);
    }
  }

  lemma {:induction false} AddToGroupMembers(groups: seq<Group>, mask: nat, seg: Segment, h: Group)
    requires MasksSorted(groups) && h in AddToGroup(groups, mask, seg) && h.mask != mask
    ensures h in groups
  {
    if groups != [] && groups[0].mask < mask && h != groups[0] { AddToGroupMembers(groups[1..], mask, seg, h); }
  }

  lemma {:induction false} NoRanges(groups: seq<Group>, mask: nat)
    requires MasksSorted(groups) && (groups != [] ==> mask < groups[0].mask)
    ensures Ranges(groups, mask) == []
  {
    if groups != [] { NoRanges(groups[1..], mask); }
  }

  /** The ranges stored under a mask, none if the key is absent. */
  function Ranges(groups: seq<Group>, mask: nat): seq<Segment> {
    if groups == [] then []
    else if groups[0].mask == mask then groups[0].segs
    else Ranges(groups[1..], mask)
  }

  /** The ranges of `merged` that carry `mask`, in order. */
  function WithMask(merged: seq<Affinity>, mask: nat): seq<Segment> {
    if merged == [] then []
    else
      var front := WithMask(merged[..|merged| - 1], mask);
      var last := merged[|merged| - 1];
      if last.mask == mask then front + [last.seg] else front
  }

  method GroupByMask(merged: seq<Affinity>) returns (groups: seq<Group>)
    ensures MasksSorted(groups)
    ensures forall m :: Ranges(groups, m) == WithMask(merged, m)
    ensures forall g :: g in groups ==> g.segs != []
  {
    groups := [];
    for i := 0 to |merged|
      invariant MasksSorted(groups)
      invariant forall m :: Ranges(groups, m) == WithMask(merged[..i], m)
      invariant forall g :: g in groups ==> g.segs != []
    {
      var p := merged[i];
      assert merged[..i + 1][..i] == merged[..i];
      var next := AddToGroup(groups, p.mask, p.seg);
      forall m ensures Ranges(next, m) == WithMask(merged[..i + 1], m) { AddToGroupRanges(groups, p.mask, p.seg, m); }
      forall g | g in next ensures g.segs != [] {
        if g.mask == p.mask { RangesAt(next, g); } else { AddToGroupMembers(groups, p.mask, p.seg, g); }
      }
      groups := next;
    }
    assert merged[..|merged|] == merged;
  }

  lemma {:induction false} RangesAt(groups: seq<Group>, g: Group)
    requires MasksSorted(groups) && g in groups
    ensures Ranges(groups, g.mask) == g.segs
  {
    if groups[0] != g {
      assert g in groups[1..];
      RangesAt(groups[1..], g);
    }
  }

  predicate Slot(groups: seq<Group>, g: int, s: int) {
    0 <= g < |groups| && 0 <= s < |groups[g].segs|
  }

  predicate Apart(a: Segment, b: Segment) { a.end <= b.start || b.end <= a.start }

  /** What packing relies on: no group is empty, ranges are nonempty and pairwise disjoint. */
  ghost predicate Packable(groups: seq<Group>) {
    && (forall g :: 0 <= g < |groups| ==> groups[g].segs != [])
    && (forall g, s :: Slot(groups, g, s) ==> groups[g].segs[s].Nonempty())
    && (forall g, s, h, u :: Slot(groups, g, s) && Slot(groups, h, u) && (g != h || s != u) ==>
          Apart(groups[g].segs[s], groups[h].segs[u]))
  }

  /** The groups hold exactly the ranges of `merged`, each under its own mask. */
  ghost predicate Grouping(merged: seq<Affinity>, groups: seq<Group>) {
    && (forall g, s :: Slot(groups, g, s) ==> Affinity(groups[g].segs[s], groups[g].mask) in merged)
    && (forall a {:trigger HasSlot(groups, a)} :: a in merged ==> HasSlot(groups, a))
  }

  ghost predicate HasSlot(groups: seq<Group>, a: Affinity) {
    exists g, s :: Slot(groups, g, s) && groups[g].mask == a.mask && groups[g].segs[s] == a.seg
  }

  lemma {:induction false} WithMaskSource(merged: seq<Affinity>, mask: nat, s: nat) returns (k: nat)
    requires s < |WithMask(merged, mask)|
    ensures k < |merged| && merged[k] == Affinity(WithMask(merged, mask)[s], mask)
  {
    var n := |merged| - 1;
    if s < |WithMask(merged[..n], mask)| {
      k := WithMaskSource(merged[..n], mask, s);
    } else {
      k := n;
    }
  }

  lemma {:induction false} WithMaskHas(merged: seq<Affinity>, k: nat) returns (s: nat)
    requires k < |merged|
    ensures s < |WithMask(merged, merged[k].mask)| && WithMask(merged, merged[k].mask)[s] == merged[k].seg
  {
    var n := |merged| - 1;
    if k == n { s := |WithMask(merged[..n], merged[k].mask)|; }
    else { s := WithMaskHas(merged[..n], k); }
  }

  lemma {:induction false} WithMaskApart(merged: seq<Affinity>, mask: nat, s: nat, u: nat)
    requires Separated(merged) && s < u < |WithMask(merged, mask)|
    ensures WithMask(merged, mask)[s].end <= WithMask(merged, mask)[u].start
  {
    var n := |merged| - 1;
    if u < |WithMask(merged[..n], mask)| {
      WithMaskApart(merged[..n], mask, s, u);
    } else {
      var k := WithMaskSource(merged[..n], mask, s);
      assert merged[k] == merged[..n][k];
    }
  }

  lemma GroupsPackable(merged: seq<Affinity>, groups: seq<Group>)
    requires Separated(merged) && MasksSorted(groups)
    requires forall m :: Ranges(groups, m) == WithMask(merged, m)
    requires forall g :: g in groups ==> g.segs != []
    ensures Packable(groups) && Grouping(merged, groups)
  {
    forall g | 0 <= g < |groups| ensures groups[g].segs == WithMask(merged, groups[g].mask) {
      RangesAt(groups, groups[g]);
    }
    forall g, s | Slot(groups, g, s)
      ensures groups[g].segs[s].Nonempty() && Affinity(groups[g].segs[s], groups[g].mask) in merged
    {
      var k := WithMaskSource(merged, groups[g].mask, s);
    }
    forall g, s, h, u | Slot(groups, g, s) && Slot(groups, h, u) && (g != h || s != u)
      ensures Apart(groups[g].segs[s], groups[h].segs[u])
    {
      var k := WithMaskSource(merged, groups[g].mask, s);
      var l := WithMaskSource(merged, groups[h].mask, u);
      if g == h {
        if s < u { WithMaskApart(merged, groups[g].mask, s, u); } else { WithMaskApart(merged, groups[g].mask, u, s); }
      } else {
        assert k != l;
      }
    }
    forall a | a in merged ensures HasSlot(groups, a) {
      var k :| 0 <= k < |merged| && merged[k] == a;
      var s := WithMaskHas(merged, k);
      var g := RangesGroup(groups, a.mask);
      assert Slot(groups, g, s) && groups[g].segs[s] == a.seg;
    }
  }

  lemma {:induction false} RangesGroup(groups: seq<Group>, mask: nat) returns (g: nat)
    requires Ranges(groups, mask) != []
    ensures g < |groups| && groups[g].mask == mask && groups[g].segs == Ranges(groups, mask)
  {
    if groups[0].mask == mask { g := 0; }
    else {
      g := RangesGroup(groups[1..], mask);
      g := g + 1;
    }
  }

  /** Bytes covered by the first `s` ranges of a list. */
  function BytesTo(segs: seq<Segment>, s: nat): nat
    requires s <= |segs|
  {
    if s == 0 then 0
    else
      var last := segs[s - 1];
      BytesTo(segs, s - 1) + if last.start <= last.end then last.end - last.start else 0
  }

  function Bytes(segs: seq<Segment>): nat { BytesTo(segs, |segs|) }

  /** Offset at which group `g` begins: every earlier group takes its bytes and one line of gap. */
  function Base(groups: seq<Group>, g: nat): nat
    requires g <= |groups|
  {
    if g == 0 then 0 else Base(groups, g - 1) + Bytes(groups[g - 1].segs) + LINE
  }

  /** Offset at which range `s` of group `g` begins. */
  function Off(groups: seq<Group>, g: nat, s: nat): nat
    requires g < |groups| && s <= |groups[g].segs|
  {
    Base(groups, g) + BytesTo(groups[g].segs, s)
  }

  /** Every range is placed at its offset, and nothing else is: `src` names the slot behind each key. */
  ghost predicate Placed(groups: seq<Group>, place: map<nat, Segment>, src: map<nat, (nat, nat)>) {
    PlacedUpTo(groups, place, src, |groups|, 0)
  }

  /** Slots already handled when the loops stand at group `g`, range `s`. */
  ghost predicate Done(g: int, s: int, h: int, u: int) { h < g || (h == g && u < s) }

  ghost predicate PlacedUpTo(groups: seq<Group>, place: map<nat, Segment>, src: map<nat, (nat, nat)>, g: int, s: int) {
    && place.Keys == src.Keys
    && (forall k :: k in src ==>
          KeyPlaced(groups, place[k], src[k], k) && Done(g, s, src[k].0, src[k].1))
    && (forall h, u {:trigger groups[h].segs[u].start in src} :: Slot(groups, h, u) && Done(g, s, h, u) ==>
        groups[h].segs[u].start in src)
  }

  /** What `src` says of one key. */
  ghost predicate KeyPlaced(groups: seq<Group>, to: Segment, slot: (nat, nat), k: nat) {
    && Slot(groups, slot.0, slot.1)
    && groups[slot.0].segs[slot.1].start == k
    && to == Segment(Off(groups, slot.0, slot.1), Off(groups, slot.0, slot.1 + 1))
  }

  lemma PlaceOne(groups: seq<Group>, place: map<nat, Segment>, src: map<nat, (nat, nat)>, g: nat, s: nat)
    requires Slot(groups, g, s) && PlacedUpTo(groups, place, src, g, s)
    ensures var k := groups[g].segs[s].start;
            PlacedUpTo(groups, place[k := Segment(Off(groups, g, s), Off(groups, g, s + 1))],
                       src[k := (g, s)], g, s + 1)
  {}

  /** Distinct slots have distinct keys, so `src` inverts `start`. */
  lemma SlotOfStart(groups: seq<Group>, place: map<nat, Segment>, src: map<nat, (nat, nat)>, g: nat, s: nat)
    requires Packable(groups) && Placed(groups, place, src) && Slot(groups, g, s)
    ensures var k := groups[g].segs[s].start;
            k in src && src[k] == (g, s) && place[k] == Segment(Off(groups, g, s), Off(groups, g, s + 1))
  {
    var k := groups[g].segs[s].start;
    assert groups[g].segs[s].start in src;
    assert KeyPlaced(groups, place[k], src[k], k);
  }

  /** The inner loop of `calc_remapping`: one group is laid out from its base on. */
  method PlaceGroup(groups: seq<Group>, g: nat, place0: map<nat, Segment>, ghost src0: map<nat, (nat, nat)>,
                    offset0: nat)
    returns (place: map<nat, Segment>, ghost src: map<nat, (nat, nat)>, offset: nat)
    requires Packable(groups) && g < |groups| && PlacedUpTo(groups, place0, src0, g, 0) && offset0 == Base(groups, g)
    ensures PlacedUpTo(groups, place, src, g + 1, 0)
    ensures offset == Base(groups, g + 1) - LINE && offset > 0
  {
    place, src, offset := place0, src0, offset0;
    var segs := groups[g].segs;
    for s := 0 to |segs|
      invariant PlacedUpTo(groups, place, src, g, s)
      invariant offset == Off(groups, g, s)
    {
      assert Slot(groups, g, s);
      var seg := segs[s];
      PlaceOne(groups, place, src, g, s);
      var mapTo := Segment(offset, offset + seg.end - seg.start);
      place, src := place[seg.start := mapTo], src[seg.start := (g, s)];
      offset := mapTo.end;
    }
    BytesPositive(groups, g);
  }

  lemma BytesPositive(groups: seq<Group>, g: nat)
    requires Packable(groups) && g < |groups|
    ensures Bytes(groups[g].segs) > 0
  {}

  method CalcRemapping(groups: seq<Group>)
    returns (place: map<nat, Segment>, ghost src: map<nat, (nat, nat)>, afterMapped: nat)
    requires Packable(groups)
    ensures Placed(groups, place, src)
    ensures afterMapped == if groups == [] then 0 else Base(groups, |groups|) - LINE
  {
    place, src := map[], map[];
    var offset: nat := 0;
    for g := 0 to |groups|
      invariant PlacedUpTo(groups, place, src, g, 0)
      invariant offset == if g == 0 then 0 else Base(groups, g) - LINE
      invariant g > 0 ==> offset > 0
    {
      if offset != 0 { offset := offset + LINE; }
      place, src, offset := PlaceGroup(groups, g, place, src, offset);
    }
    afterMapped := offset;
  }

  /** Bytes of the first `g` groups. */
  function TotalBytes(groups: seq<Group>, g: nat): nat
    requires g <= |groups|
  {
    if g == 0 then 0 else TotalBytes(groups, g - 1) + Bytes(groups[g - 1].segs)
  }

  /** Total size: all covered bytes plus one line of gap per group boundary. */
  lemma {:induction false} BaseTotal(groups: seq<Group>, g: nat)
    requires g <= |groups|
    ensures Base(groups, g) == TotalBytes(groups, g) + LINE * g
  {
    if g > 0 { BaseTotal(groups, g - 1); }
  }

  lemma {:induction false} BaseMono(groups: seq<Group>, g: nat, h: nat)
    requires g <= h <= |groups|
    ensures Base(groups, g) <= Base(groups, h)
    decreases h - g
  {
    if g < h { BaseMono(groups, g, h - 1); }
  }

  lemma {:induction false} BytesMono(segs: seq<Segment>, s: nat, u: nat)
    requires s <= u <= |segs|
    ensures BytesTo(segs, s) <= BytesTo(segs, u)
    decreases u - s
  {
    if s < u { BytesMono(segs, s, u - 1); }
  }

  /** Images of distinct ranges do not meet; images from different groups are a line apart. */
  lemma ImagesApart(groups: seq<Group>, g: nat, s: nat, h: nat, u: nat)
    requires Slot(groups, g, s) && Slot(groups, h, u)
    ensures g == h && s < u ==> Off(groups, g, s + 1) <= Off(groups, h, u)
    ensures g < h ==> Off(groups, g, s + 1) + LINE <= Off(groups, h, u)
  {
    if g == h && s < u {
      BytesMono(groups[g].segs, s + 1, u);
    } else if g < h {
      BytesMono(groups[g].segs, s + 1, |groups[g].segs|);
      BaseMono(groups, g + 1, h);
    }
  }

  lemma ImageInRange(groups: seq<Group>, g: nat, s: nat)
    requires Slot(groups, g, s)
    ensures Off(groups, g, s + 1) <= Base(groups, |groups|) - LINE
  {
    BytesMono(groups[g].segs, s + 1, |groups[g].segs|);
    BaseMono(groups, g + 1, |groups|);
  }
}
