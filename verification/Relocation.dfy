/** What the layout repair pass promises (postprocess/Repair.cpp): its output is one injective
    byte relocation, accesses redirected by the emitted lines read what they read before, and
    threads of different groups no longer meet in a cache line. */
module Relocation {
  import opened OrderedKeys
  import opened Segments
  import opened MergeSegments
  import opened Placement
  import opened Layout

  /** Everything the pass computed between the access relation and the lines. */
  datatype Plan = Plan(merged: seq<Affinity>, groups: seq<Group>, place: map<nat, Segment>, src: map<nat, (nat, nat)>)

  ghost predicate Sound(plan: Plan) {
    && plan.merged != [] && Separated(plan.merged) && Grouping(plan.merged, plan.groups)
    && Packable(plan.groups) && MasksSorted(plan.groups)
    && Placed(plan.groups, plan.place, plan.src)
  }

  /** Byte `x` belongs to the merged range `a`. */
  ghost predicate InRange(plan: Plan, a: Affinity, x: int) { a in plan.merged && a.seg.Contains(x) }

  ghost predicate CoveredByte(plan: Plan, x: int) { exists a :: InRange(plan, a, x) }

  ghost predicate Sheltered(plan: Plan, seg: Segment) { exists a :: a in plan.merged && seg.Inside(a.seg) }

  /** Where byte `x` goes. */
  ghost function Reloc(plan: Plan, x: nat): int {
    if exists k :: k in plan.place.Keys && k <= x then
      var k := Floor(plan.place.Keys, x);
      plan.place[k].start + (x - k)
    else -1
  }

  lemma FindSlot(plan: Plan, a: Affinity) returns (g: nat, s: nat)
    requires Grouping(plan.merged, plan.groups) && a in plan.merged
    ensures Slot(plan.groups, g, s) && plan.groups[g].mask == a.mask && plan.groups[g].segs[s] == a.seg
  {
    assert HasSlot(plan.groups, a);
    g, s :| Slot(plan.groups, g, s) && plan.groups[g].mask == a.mask && plan.groups[g].segs[s] == a.seg;
  }

  /** The table lookup of `remap` finds the range that holds the byte. */
  lemma FloorAt(plan: Plan, g: nat, s: nat, x: nat)
    requires Sound(plan) && Slot(plan.groups, g, s) && plan.groups[g].segs[s].Contains(x)
    ensures var k := plan.groups[g].segs[s].start; k in plan.place.Keys && Floor(plan.place.Keys, x) == k
  {
    SlotOfStart(plan.groups, plan.place, plan.src, g, s);
    var k0 := plan.groups[g].segs[s].start;
    assert k0 in plan.place.Keys;
    StartApart(plan, g, s, Floor(plan.place.Keys, x));
  }

  /** The slot of a merged range, and the image of its bytes. */
  lemma RangeImage(plan: Plan, a: Affinity, x: int) returns (g: nat, s: nat)
    requires Sound(plan) && InRange(plan, a, x)
    ensures Slot(plan.groups, g, s) && plan.groups[g].mask == a.mask && plan.groups[g].segs[s] == a.seg
    ensures a.seg.start in plan.place.Keys && Floor(plan.place.Keys, x) == a.seg.start
    ensures plan.place[a.seg.start] == Segment(Off(plan.groups, g, s), Off(plan.groups, g, s + 1))
    ensures Off(plan.groups, g, s + 1) == Off(plan.groups, g, s) + (a.seg.end - a.seg.start)
    ensures Reloc(plan, x) == Off(plan.groups, g, s) + (x - a.seg.start)
  {
    g, s := FindSlot(plan, a);
    SlotOfStart(plan.groups, plan.place, plan.src, g, s);
    FloorAt(plan, g, s, x);
  }

  lemma StartApart(plan: Plan, g: nat, s: nat, k: nat)
    requires Sound(plan) && Slot(plan.groups, g, s) && k in plan.place.Keys
    ensures k <= plan.groups[g].segs[s].start || plan.groups[g].segs[s].end <= k
  {
    assert k in plan.src;
    var slot := plan.src[k];
    assert KeyPlaced(plan.groups, plan.place[k], slot, k);
    if slot != (g, s) {
      assert Apart(plan.groups[g].segs[s], plan.groups[slot.0].segs[slot.1]);
    }
  }

  /** Distinct covered bytes keep distinct addresses. */
  lemma RelocInjective(plan: Plan, x: int, y: int)
    requires Sound(plan) && CoveredByte(plan, x) && CoveredByte(plan, y) && x != y
    ensures x >= 0 && y >= 0 && Reloc(plan, x) != Reloc(plan, y)
  {
    var a :| InRange(plan, a, x);
    var b :| InRange(plan, b, y);
    var g, s := RangeImage(plan, a, x);
    var h, u := RangeImage(plan, b, y);
    ImagesApart(plan.groups, g, s, h, u);
    ImagesApart(plan.groups, h, u, g, s);
  }

  function NewSize(groups: seq<Group>): int {
    if groups == [] then 0 else Base(groups, |groups|) - LINE
  }

  lemma RelocInBounds(plan: Plan, x: int)
    requires Sound(plan) && CoveredByte(plan, x)
    ensures x >= 0 && 0 <= Reloc(plan, x) < NewSize(plan.groups)
  {
    var a :| InRange(plan, a, x);
    var g, s := RangeImage(plan, a, x);
    ImageInRange(plan.groups, g, s);
  }

  /** The bytes of one range. */
  function BytesOf(seg: Segment): set<int> { set x | seg.start <= x < seg.end && seg.Contains(x) }

  lemma BytesOfLast(seg: Segment)
    requires seg.start < seg.end
    ensures BytesOf(seg) == BytesOf(Segment(seg.start, seg.end - 1)) + {seg.end - 1}
  {
    var less := Segment(seg.start, seg.end - 1);
    forall x ensures x in BytesOf(seg) <==> x in BytesOf(less) || x == seg.end - 1 {
      assert seg.Contains(x) <==> less.Contains(x) || x == seg.end - 1;
    }
  }

  lemma {:induction false} BytesOfSize(seg: Segment)
    requires seg.start <= seg.end
    ensures |BytesOf(seg)| == seg.end - seg.start
    decreases seg.end
  {
    if seg.start < seg.end {
      var less := Segment(seg.start, seg.end - 1);
      BytesOfSize(less);
      BytesOfLast(seg);
      assert seg.end - 1 !in BytesOf(less);
    }
  }

  /** A position of the packing loops: before range `s` of group `g`, or past the last group. */
  predicate Cursor(groups: seq<Group>, g: nat, s: nat) {
    (g < |groups| && s <= |groups[g].segs|) || (g == |groups| && s == 0)
  }

  /** The bytes of the slots before group `g`, range `s`. */
  ghost function BytesBefore(groups: seq<Group>, g: nat, s: nat): set<int>
    requires Cursor(groups, g, s)
    decreases g, s
  {
    if s > 0 then BytesBefore(groups, g, s - 1) + BytesOf(groups[g].segs[s - 1])
    else if g > 0 then BytesBefore(groups, g - 1, |groups[g - 1].segs|)
    else {}
  }

  lemma {:induction false} BytesBeforeSource(groups: seq<Group>, g: nat, s: nat, x: int) returns (h: nat, u: nat)
    requires Cursor(groups, g, s)
    requires x in BytesBefore(groups, g, s)
    ensures Slot(groups, h, u) && Done(g, s, h, u) && groups[h].segs[u].Contains(x)
    decreases g, s
  {
    if s > 0 {
      if x in BytesBefore(groups, g, s - 1) { h, u := BytesBeforeSource(groups, g, s - 1, x); }
      else { h, u := g, s - 1; }
    } else {
      h, u := BytesBeforeSource(groups, g - 1, |groups[g - 1].segs|, x);
    }
  }

  lemma {:induction false} BytesBeforeHas(groups: seq<Group>, g: nat, s: nat, h: nat, u: nat, x: int)
    requires Cursor(groups, g, s)
    requires Slot(groups, h, u) && Done(g, s, h, u) && groups[h].segs[u].Contains(x)
    ensures x in BytesBefore(groups, g, s)
    decreases g, s
  {
    if s > 0 {
      if (h, u) != (g, s - 1) { BytesBeforeHas(groups, g, s - 1, h, u, x); }
    } else {
      BytesBeforeHas(groups, g - 1, |groups[g - 1].segs|, h, u, x);
    }
  }

  lemma BytesBeforeFresh(groups: seq<Group>, g: nat, s: nat)
    requires Packable(groups) && Slot(groups, g, s)
    ensures BytesBefore(groups, g, s) !! BytesOf(groups[g].segs[s])
  {
    forall x | x in BytesBefore(groups, g, s) ensures x !in BytesOf(groups[g].segs[s]) {
      var h, u := BytesBeforeSource(groups, g, s, x);
      assert Apart(groups[h].segs[u], groups[g].segs[s]);
    }
  }

  lemma BytesBeforeNext(groups: seq<Group>, g: nat, s: nat)
    requires Packable(groups) && Slot(groups, g, s)
    ensures |BytesBefore(groups, g, s + 1)| ==
              |BytesBefore(groups, g, s)| + (groups[g].segs[s].end - groups[g].segs[s].start)
  {
    BytesBeforeFresh(groups, g, s);
    BytesOfSize(groups[g].segs[s]);
  }

  lemma {:induction false} RowCount(groups: seq<Group>, g: nat, s: nat)
    requires Packable(groups) && g < |groups| && s <= |groups[g].segs|
    ensures |BytesBefore(groups, g, s)| == |BytesBefore(groups, g, 0)| + BytesTo(groups[g].segs, s)
    decreases s
  {
    if s > 0 {
      RowCount(groups, g, s - 1);
      BytesBeforeNext(groups, g, s - 1);
      assert Slot(groups, g, s - 1);
    }
  }

  lemma {:induction false} BytesBeforeCount(groups: seq<Group>, g: nat)
    requires Packable(groups) && g <= |groups|
    ensures |BytesBefore(groups, g, 0)| == TotalBytes(groups, g)
  {
    if g > 0 {
      BytesBeforeCount(groups, g - 1);
      RowCount(groups, g - 1, |groups[g - 1].segs|);
    }
  }

  /** The new size is the number of covered bytes plus one line between consecutive groups. */
  lemma SizeFormula(plan: Plan) returns (covered: set<int>)
    requires Sound(plan)
    ensures forall x :: x in covered <==> CoveredByte(plan, x)
    ensures NewSize(plan.groups) == |covered| + LINE * (|plan.groups| - 1)
  {
    var groups := plan.groups;
    covered := BytesBefore(groups, |groups|, 0);
    BytesBeforeCount(groups, |groups|);
    BaseTotal(groups, |groups|);
    var g0, s0 := FindSlot(plan, plan.merged[0]);
    forall x ensures x in covered <==> CoveredByte(plan, x) {
      if x in covered {
        var h, u := BytesBeforeSource(groups, |groups|, 0, x);
        assert InRange(plan, Affinity(groups[h].segs[u], groups[h].mask), x);
      }
      if CoveredByte(plan, x) {
        var a :| InRange(plan, a, x);
        var g, s := FindSlot(plan, a);
        BytesBeforeHas(groups, |groups|, 0, g, s, x);
      }
    }
  }

  /** Whatever address the block is given, bytes whose ranges are used by different sets of
      threads never share a cache line. */
  lemma NoLineShared(plan: Plan, address: nat, x: int, a: Affinity, y: int, b: Affinity)
    requires Sound(plan) && InRange(plan, a, x) && InRange(plan, b, y) && a.mask != b.mask
    ensures x >= 0 && y >= 0 && Reloc(plan, x) >= 0 && Reloc(plan, y) >= 0
    ensures (address + Reloc(plan, x)) / LINE != (address + Reloc(plan, y)) / LINE
  {
    var g, s := RangeImage(plan, a, x);
    var h, u := RangeImage(plan, b, y);
    ImagesApart(plan.groups, g, s, h, u);
    ImagesApart(plan.groups, h, u, g, s);
  }

  /** The shift found for the start of a range is the shift of all its bytes. */
  lemma ShiftIsReloc(plan: Plan, seg: Segment, x: int)
    requires Sound(plan) && seg.Contains(x) && Sheltered(plan, seg) && Mapped(plan.place, seg)
    ensures CoveredByte(plan, x) && x >= 0 && x + Shift(plan.place, seg) == Reloc(plan, x)
  {
    var a :| a in plan.merged && seg.Inside(a.seg);
    assert InRange(plan, a, x) && InRange(plan, a, seg.start);
    var g, s := RangeImage(plan, a, x);
    var h, u := RangeImage(plan, a, seg.start);
  }

  /** Redirection by the emitted lines is the relocation. */
  lemma RedirectIsReloc(plan: Plan, segs: seq<Segment>, ls: seq<Line>, r: nat, x: int)
    requires Sound(plan) && r < |segs| && segs[r].Contains(x)
    requires AllSheltered(plan, segs) && Describes(plan.place, segs, ls)
    ensures CoveredByte(plan, x) && x >= 0
    ensures LineIndex(ls, r) < |ls| && x + (ls[LineIndex(ls, r)].to - ls[LineIndex(ls, r)].from) == Reloc(plan, x)
  {
    assert segs[r] in segs;
    ShiftIsReloc(plan, segs[r], x);
  }

  /** The assertions of `remap` hold for every range inside a merged range. */
  lemma InsideMapped(plan: Plan, seg: Segment)
    requires Sound(plan) && seg.Nonempty() && Sheltered(plan, seg)
    ensures Mapped(plan.place, seg)
  {
    var a :| a in plan.merged && seg.Inside(a.seg);
    assert InRange(plan, a, seg.start);
    var g, s := RangeImage(plan, a, seg.start);
  }

  // ---- programs before and after redirection ------------------------------------------------

  /** One byte access by copy `r` of an instruction: the copy that works on recorded range `r`. */
  datatype Event =
    | Load(key: Key, r: nat, x: int)
    | Store(key: Key, r: nat, x: int, value: int)

  /** The access stays inside the range recorded for its copy. */
  ghost predicate Within(rel: seq<Entry>, e: Event) {
    e.r < |Recorded(rel, e.key)| && Recorded(rel, e.key)[e.r].Contains(e.x)
  }

  /** The address after the compiler pass has added `to - from` of the copy's line. */
  ghost function Redirected(lines: seq<Line>, e: Event): int {
    var ls := LinesFor(lines, e.key);
    if LineIndex(ls, e.r) < |ls| then e.x + (ls[LineIndex(ls, e.r)].to - ls[LineIndex(ls, e.r)].from) else e.x
  }

  function Write(mem: int -> int, a: int, v: int): int -> int {
    y => if y == a then v else mem(y)
  }

  /** The values loaded by a trace, in order, when event `e` uses address `addr(e)`. */
  ghost function Loads(mem: int -> int, trace: seq<Event>, addr: Event -> int): seq<int> {
    if trace == [] then []
    else match trace[0]
      case Load(_, _, _) => [mem(addr(trace[0]))] + Loads(mem, trace[1..], addr)
      case Store(_, _, _, v) => Loads(Write(mem, addr(trace[0]), v), trace[1..], addr)
  }

  /** What `Layout` establishes of its lines. */
  ghost predicate Repairs(rel: seq<Entry>, plan: Plan, lines: seq<Line>) {
    && Sound(plan)
    && (forall key {:trigger RepairsKey(rel, plan, lines, key)} :: RepairsKey(rel, plan, lines, key))
  }

  ghost predicate RepairsKey(rel: seq<Entry>, plan: Plan, lines: seq<Line>, key: Key) {
    AllSheltered(plan, Recorded(rel, key)) && Describes(plan.place, Recorded(rel, key), LinesFor(lines, key))
  }

  ghost predicate AllSheltered(plan: Plan, segs: seq<Segment>) {
    && (forall s :: s in segs ==> s.Nonempty() && Sheltered(plan, s))
    && (forall s :: s in segs ==> Mapped(plan.place, s))
  }

  /** The line of range `r` of a key moves the bytes of the range to their new places. */
  lemma RangeMoves(rel: seq<Entry>, plan: Plan, lines: seq<Line>, key: Key, r: nat, x: int)
    requires Sound(plan) && RepairsKey(rel, plan, lines, key)
    requires r < |Recorded(rel, key)| && Recorded(rel, key)[r].Contains(x)
    ensures x >= 0 && CoveredByte(plan, x)
    ensures var ls := LinesFor(lines, key);
            var i := LineIndex(ls, r);
            i < |ls| && x + (ls[i].to - ls[i].from) == Reloc(plan, x)
  {
    RedirectIsReloc(plan, Recorded(rel, key), LinesFor(lines, key), r, x);
  }

  lemma EventMoves(rel: seq<Entry>, plan: Plan, lines: seq<Line>, e: Event)
    requires Repairs(rel, plan, lines) && Within(rel, e)
    ensures e.x >= 0 && CoveredByte(plan, e.x) && Redirected(lines, e) == Reloc(plan, e.x)
  {
    RangeMoves(rel, plan, lines, e.key, e.r, e.x);
  }

  /** Relocated memory: every covered byte holds its value at its new address. */
  ghost predicate SameContents(plan: Plan, mem: int -> int, mem': int -> int) {
    forall x: nat :: CoveredByte(plan, x) ==> mem'(Reloc(plan, x)) == mem(x)
  }

  ghost predicate MovesTo(plan: Plan, x: nat, y: int) { CoveredByte(plan, x) && Reloc(plan, x) == y }

  /** The byte that is moved to `y`. */
  ghost function Origin(plan: Plan, y: int): (x: nat)
    requires exists x :: MovesTo(plan, x, y)
    ensures MovesTo(plan, x, y)
  {
    var x: nat :| MovesTo(plan, x, y);
    x
  }

  /** The memory of the repaired program that corresponds to `mem`. */
  ghost function Moved(plan: Plan, mem: int -> int): int -> int {
    y => if exists x :: MovesTo(plan, x, y) then mem(Origin(plan, y)) else 0
  }

  /** Every memory has its relocated counterpart. */
  lemma ContentsExist(plan: Plan, mem: int -> int)
    requires Sound(plan)
    ensures SameContents(plan, mem, Moved(plan, mem))
  {
    forall x: nat | CoveredByte(plan, x) ensures Moved(plan, mem)(Reloc(plan, x)) == mem(x) {
      assert MovesTo(plan, x, Reloc(plan, x));
      var y := Origin(plan, Reloc(plan, x));
      if y != x { RelocInjective(plan, x, y); }
    }
  }

  lemma StoreMoves(plan: Plan, mem: int -> int, mem': int -> int, x: nat, v: int)
    requires Sound(plan) && SameContents(plan, mem, mem') && CoveredByte(plan, x)
    ensures SameContents(plan, Write(mem, x, v), Write(mem', Reloc(plan, x), v))
  {
    forall y: nat | CoveredByte(plan, y)
      ensures Write(mem', Reloc(plan, x), v)(Reloc(plan, y)) == Write(mem, x, v)(y)
    {
      if y != x { RelocInjective(plan, x, y); }
    }
  }

  /** Every interleaving of loads and stores inside the recorded ranges reads the same values
      after redirection as before. */
  lemma {:induction false} TracePreserved(rel: seq<Entry>, plan: Plan, lines: seq<Line>, mem: int -> int,
                                          mem': int -> int, trace: seq<Event>)
    requires Repairs(rel, plan, lines) && SameContents(plan, mem, mem')
    requires forall e :: e in trace ==> Within(rel, e)
    ensures Loads(mem, trace, (e: Event) => e.x) == Loads(mem', trace, e => Redirected(lines, e))
  {
    if trace != [] {
      var e := trace[0];
      EventMoves(rel, plan, lines, e);
      match e
      case Load(_, _, x) => TracePreserved(rel, plan, lines, mem, mem', trace[1..]);
      case Store(_, _, x, v) =>
        StoreMoves(plan, mem, mem', x, v);
        TracePreserved(rel, plan, lines, Write(mem, x, v), Write(mem', Reloc(plan, x), v), trace[1..]);
    }
  }
}
