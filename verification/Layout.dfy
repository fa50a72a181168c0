/** The layout repair pass, class `Layout` of postprocess/Repair.cpp: from recorded accesses to
    displacement lines, and the proof that those lines describe one injective relocation. */
module Layout {
  import opened OrderedKeys
  import opened Segments
  import opened Masks
  import opened MergeSegments

  datatype PC = PC(func: nat, inst: nat)

  /** Key of `access_relation`: instruction and thread, ordered lexicographically. */
  datatype Key = Key(pc: PC, tid: nat) {
    predicate Less(rhs: Key) {
      || pc.func < rhs.pc.func
      || (pc.func == rhs.pc.func && pc.inst < rhs.pc.inst)
      || (pc == rhs.pc && tid < rhs.tid)
    }
  }

  datatype Entry = Entry(key: Key, segs: seq<Segment>)

  /** One emitted line: for `key`, bytes starting at `from` move to `to`. */
  datatype Line = Line(key: Key, from: nat, to: int)

  /** One recorded access range. */
  datatype Access = Access(seg: Segment, key: Key)

  predicate KeysSorted(rel: seq<Entry>) {
    forall i, j :: 0 <= i < j < |rel| ==> rel[i].key.Less(rel[j].key)
  }

  /** The ranges recorded under a key, none if the key is absent. */
  function Recorded(rel: seq<Entry>, key: Key): seq<Segment> {
    if rel == [] then []
    else if rel[0].key == key then rel[0].segs
    else Recorded(rel[1..], key)
  }

  /** `access_relation[key].push_back(seg)`. */
  function AddRange(rel: seq<Entry>, key: Key, seg: Segment): (r: seq<Entry>)
    requires KeysSorted(rel)
    ensures KeysSorted(r)
    ensures r != [] && (r[0].key == key || (rel != [] && r[0].key == rel[0].key && r[0].key.Less(key)))
  {
    if rel == [] || key.Less(rel[0].key) then [Entry(key, [seg])] + rel
    else if rel[0].key == key then [Entry(key, rel[0].segs + [seg])] + rel[1..]
    else [rel[0]] + AddRange(rel[1..], key, seg)
  }

  lemma {:induction false} AddRangeRecorded(rel: seq<Entry>, key: Key, seg: Segment, k: Key)
    requires KeysSorted(rel)
    ensures Recorded(AddRange(rel, key, seg), k) == Recorded(rel, k) + if k == key then [seg] else []
  {
    var r := AddRange(rel, key, seg);
    if rel == [] || key.Less(rel[0].key) {
      assert r[1..] == rel;
      NotRecorded(rel, key);
    } else if rel[0].key == key {
      assert r[1..] == rel[1..];
    } else {
      assert r[1..] == AddRange(rel[1..], key, seg);
      AddRangeRecorded(rel[1..], key, seg, k);
    }
  }

  lemma {:induction false} NotRecorded(rel: seq<Entry>, key: Key)
    requires KeysSorted(rel) && (rel != [] ==> key.Less(rel[0].key))
    ensures Recorded(rel, key) == []
  {
    if rel != [] { NotRecorded(rel[1..], key); }
  }

  lemma {:induction false} RecordedAt(rel: seq<Entry>, i: nat)
    requires KeysSorted(rel) && i < |rel|
    ensures Recorded(rel, rel[i].key) == rel[i].segs
  {
    if i > 0 {
      assert rel[1..][i - 1] == rel[i];
      RecordedAt(rel[1..], i - 1);
    }
  }

  lemma {:induction false} RecordedEntry(rel: seq<Entry>, key: Key) returns (i: nat)
    requires Recorded(rel, key) != []
    ensures i < |rel| && rel[i].key == key && rel[i].segs == Recorded(rel, key)
  {
    if rel[0].key == key { i := 0; }
    else {
      i := RecordedEntry(rel[1..], key);
      i := i + 1;
    }
  }

  // ---- the affinity table -------------------------------------------------------------------

  predicate SegsSorted(aff: seq<Affinity>) {
    forall i, j :: 0 <= i < j < |aff| ==> aff[i].seg.Less(aff[j].seg)
  }

  function MaskOf(aff: seq<Affinity>, seg: Segment): nat {
    if aff == [] then 0 else if aff[0].seg == seg then aff[0].mask else MaskOf(aff[1..], seg)
  }

  /** `thread_affinity[seg] |= bit`. */
  function AddAffinity(aff: seq<Affinity>, seg: Segment, bit: nat): (r: seq<Affinity>)
    requires SegsSorted(aff)
    ensures SegsSorted(r)
    ensures r != [] && (r[0].seg == seg || (aff != [] && r[0].seg == aff[0].seg && r[0].seg.Less(seg)))
    ensures forall k :: MaskOf(r, k) == if k == seg then Or(MaskOf(aff, k), bit) else MaskOf(aff, k)
    ensures forall k :: HasSeg(r, k) <==> k == seg || HasSeg(aff, k)
  {
    if aff == [] || seg.Less(aff[0].seg) then
      var r := [Affinity(seg, Or(0, bit))] + aff;
      assert r[1..] == aff;
      assert MaskOf(aff, seg) == 0 by { NoMask(aff, seg); }
      r
    else if aff[0].seg == seg then
      var r := [Affinity(seg, Or(aff[0].mask, bit))] + aff[1..];
      assert r[1..] == aff[1..];
      r
    else
      var r := [aff[0]] + AddAffinity(aff[1..], seg, bit);
      assert r[1..] == AddAffinity(aff[1..], seg, bit);
      r
  }

  predicate HasSeg(aff: seq<Affinity>, seg: Segment) {
    aff != [] && (aff[0].seg == seg || HasSeg(aff[1..], seg))
  }

  lemma {:induction false} NoMask(aff: seq<Affinity>, seg: Segment)
    requires SegsSorted(aff) && (aff != [] ==> seg.Less(aff[0].seg))
    ensures MaskOf(aff, seg) == 0
  {
    if aff != [] { NoMask(aff[1..], seg); }
  }

  lemma {:induction false} MaskAt(aff: seq<Affinity>, i: nat)
    requires SegsSorted(aff) && i < |aff|
    ensures HasSeg(aff, aff[i].seg) && MaskOf(aff, aff[i].seg) == aff[i].mask
  {
    if i > 0 {
      assert aff[1..][i - 1] == aff[i];
      MaskAt(aff[1..], i - 1);
    }
  }

  lemma {:induction false} SegIndex(aff: seq<Affinity>, seg: Segment) returns (i: nat)
    requires HasSeg(aff, seg)
    ensures i < |aff| && aff[i].seg == seg && (SegsSorted(aff) ==> aff[i].mask == MaskOf(aff, seg))
  {
    if aff[0].seg == seg { i := 0; }
    else {
      i := SegIndex(aff[1..], seg);
      i := i + 1;
    }
  }

  /** Thread `t` recorded exactly the range `seg` for one of the first `n` keys, or for key `n`
      among its first `m` ranges. */
  ghost predicate UsedBy(rel: seq<Entry>, n: nat, m: nat, seg: Segment, t: nat) {
    exists i, j :: 0 <= i < |rel| && 0 <= j < |rel[i].segs| && (i < n || (i == n && j < m))
                   && rel[i].segs[j] == seg && rel[i].key.tid == t
  }

  lemma UsedStep(rel: seq<Entry>, n: nat, m: nat, seg: Segment, t: nat)
    requires n < |rel| && m < |rel[n].segs|
    ensures UsedBy(rel, n, m + 1, seg, t) <==>
              UsedBy(rel, n, m, seg, t) || (rel[n].segs[m] == seg && rel[n].key.tid == t)
  {
    if rel[n].segs[m] == seg && rel[n].key.tid == t { assert UsedBy(rel, n, m + 1, seg, t); }
  }

  lemma UsedNext(rel: seq<Entry>, n: nat, seg: Segment, t: nat)
    requires n < |rel|
    ensures UsedBy(rel, n + 1, 0, seg, t) <==> UsedBy(rel, n, |rel[n].segs|, seg, t)
  {
  }

  /** The table holds exactly the recorded ranges, and a range's mask exactly its threads. */
  ghost predicate AffinityOf(rel: seq<Entry>, n: nat, m: nat, aff: seq<Affinity>) {
    && SegsSorted(aff)
    && (forall seg, t :: HasBit(MaskOf(aff, seg), t) <==> UsedBy(rel, n, m, seg, t))
    && (forall seg :: HasSeg(aff, seg) <==> MaskOf(aff, seg) != 0)
  }

  lemma AffinityStep(rel: seq<Entry>, n: nat, m: nat, aff: seq<Affinity>)
    requires n < |rel| && m < |rel[n].segs| && AffinityOf(rel, n, m, aff)
    ensures AffinityOf(rel, n, m + 1, AddAffinity(aff, rel[n].segs[m], Bit(rel[n].key.tid)))
  {
    var seg0, tid := rel[n].segs[m], rel[n].key.tid;
    var r := AddAffinity(aff, seg0, Bit(tid));
    forall seg, t ensures HasBit(MaskOf(r, seg), t) <==> UsedBy(rel, n, m + 1, seg, t) {
      UsedStep(rel, n, m, seg, t);
      BitHas(tid, t);
      OrHas(MaskOf(aff, seg), Bit(tid), t);
    }
    OrHas(MaskOf(aff, seg0), Bit(tid), tid);
    BitHas(tid, tid);
    ZeroHas(tid);
  }

  method GetThreadAffinity(rel: seq<Entry>) returns (aff: seq<Affinity>)
    ensures AffinityOf(rel, |rel|, 0, aff)
  {
    aff := [];
    forall seg, t ensures HasBit(MaskOf(aff, seg), t) <==> UsedBy(rel, 0, 0, seg, t) { ZeroHas(t); }
    for n := 0 to |rel|
      invariant AffinityOf(rel, n, 0, aff)
    {
      for m := 0 to |rel[n].segs|
        invariant AffinityOf(rel, n, m, aff)
      {
        AffinityStep(rel, n, m, aff);
        aff := AddAffinity(aff, rel[n].segs[m], Bit(rel[n].key.tid));
      }
      forall seg, t ensures UsedBy(rel, n + 1, 0, seg, t) <==> UsedBy(rel, n, |rel[n].segs|, seg, t) {
        UsedNext(rel, n, seg, t);
      }
    }
  }

  // ---- remapping lines ----------------------------------------------------------------------

  /** `AllEqual<long>` of postprocess/Utils.h; `seen` is everything offered so far. */
  class AllEqual {
    var prev: int
    var isFirst: bool
    var isUnequal: bool
    ghost var seen: seq<int>

    ghost predicate Valid()
      reads this
    {
      && (isFirst <==> seen == [])
      && (!isFirst ==> prev == seen[0])
      && (isUnequal <==> !Constant(seen))
    }

    constructor ()
      ensures Valid() && seen == []
    {
      prev, isFirst, isUnequal, seen := 0, true, false, [];
    }

    method Next(t: int)
      requires Valid()
      modifies this
      ensures Valid() && seen == old(seen) + [t]
    {
      seen := seen + [t];
      if isUnequal {
        assert !Constant(old(seen));
        ghost var i :| 0 <= i < |old(seen)| && old(seen)[i] != old(seen)[0];
        assert seen[i] != seen[0];
        return;
      }
      if isFirst { prev, isFirst := t, false; }
      else if t != prev {
        isUnequal := true;
        assert seen[|seen| - 1] != seen[0];
      }
    }

    method IsAllEqual() returns (b: bool)
      requires Valid()
      ensures b <==> Constant(seen)
    {
      b := !isUnequal;
    }
  }

  predicate Constant(s: seq<int>) { forall i :: 0 <= i < |s| ==> s[i] == s[0] }

  /** `range` lies inside the placed range that `Floor` finds for its start: the assertions of `remap`. */
  ghost predicate Mapped(place: map<nat, Segment>, range: Segment) {
    && (exists k :: k in place.Keys && k <= range.start)
    && var k := Floor(place.Keys, range.start);
       place[k].start <= place[k].end && range.end <= k + (place[k].end - place[k].start)
  }

  /** How far the bytes of `range` move. */
  function Shift(place: map<nat, Segment>, range: Segment): int
    requires Mapped(place, range)
  {
    var k := Floor(place.Keys, range.start);
    place[k].start - k
  }

  function LineOf(place: map<nat, Segment>, key: Key, range: Segment): Line
    requires Mapped(place, range)
  {
    Line(key, range.start, range.start + Shift(place, range))
  }

  /** The lines of `lines` for one key, in order: what `PCInfo` hands to one thread. */
  function LinesFor(lines: seq<Line>, key: Key): seq<Line> {
    if lines == [] then []
    else
      var n := |lines| - 1;
      if lines[n].key == key then LinesFor(lines[..n], key) + [lines[n]] else LinesFor(lines[..n], key)
  }

  lemma {:induction false} LinesForAppend(a: seq<Line>, b: seq<Line>, key: Key)
    ensures LinesFor(a + b, key) == LinesFor(a, key) + LinesFor(b, key)
  {
    if b == [] { assert a + b == a; }
    else {
      var n := |b| - 1;
      assert (a + b)[..|a + b| - 1] == a + b[..n];
      LinesForAppend(a, b[..n], key);
    }
  }

  lemma {:induction false} LinesForOne(ls: seq<Line>, owner: Key, key: Key)
    requires forall i :: 0 <= i < |ls| ==> ls[i].key == owner
    ensures LinesFor(ls, key) == if key == owner then ls else []
  {
    if ls != [] {
      LinesForOne(ls[..|ls| - 1], owner, key);
      assert ls == ls[..|ls| - 1] + [ls[|ls| - 1]];
    }
  }

  /** What the lines of one key must say about its ranges: one line for all ranges exactly if they move
      alike, else line `r` for range `r`; either way adding `to - from` moves every range by its own shift. */
  ghost predicate Describes(place: map<nat, Segment>, segs: seq<Segment>, ls: seq<Line>)
    requires forall s :: s in segs ==> Mapped(place, s)
  {
    && (segs == [] <==> ls == [])
    && (|ls| == 1 || |ls| == |segs|)
    && (forall r :: 0 <= r < |segs| ==> ls[LineIndex(ls, r)].to - ls[LineIndex(ls, r)].from == Shift(place, segs[r]))
    && (forall r :: 0 <= r < |ls| ==> ls[r].from == segs[r].start)
    && (segs != [] ==> (|ls| == 1 <==> ShiftAlike(place, segs)))
  }

  /** All ranges move by the same distance. */
  ghost predicate ShiftAlike(place: map<nat, Segment>, segs: seq<Segment>)
    requires forall s :: s in segs ==> Mapped(place, s)
  {
    forall r :: 0 <= r < |segs| ==> Shift(place, segs[r]) == Shift(place, segs[0])
  }

  /** The line that serves copy `r` of an instruction. */
  function LineIndex(ls: seq<Line>, r: nat): nat { if |ls| == 1 then 0 else r }

  /** One round of the loop of `remap`: a line per range, or one line if all shifts agree. */
  method RemapEntry(e: Entry, place: map<nat, Segment>) returns (out: seq<Line>)
    requires forall s :: s in e.segs ==> Mapped(place, s)
    ensures Describes(place, e.segs, out)
    ensures forall i :: 0 <= i < |out| ==> out[i].key == e.key
  {
    var ae := new AllEqual();
    var lines: seq<Line> := [];
    for i := 0 to |e.segs|
      invariant fresh(ae) && ae.Valid() && |ae.seen| == i && |lines| == i
      invariant forall r :: 0 <= r < i ==> ae.seen[r] == Shift(place, e.segs[r])
      invariant forall r :: 0 <= r < i ==> lines[r] == LineOf(place, e.key, e.segs[r])
    {
      var seg := e.segs[i];
      assert Mapped(place, seg);
      var first := Floor(place.Keys, seg.start);
      var to := place[first];
      assert seg.start >= first && seg.end <= first + (to.end - to.start);
      var offset := to.start - first;
      ae.Next(offset);
      lines := lines + [Line(e.key, seg.start, seg.start + offset)];
    }
    var allEqual := ae.IsAllEqual();
    out := [];
    if !allEqual { out := lines; }
    else if lines != [] {
      out := [lines[0]];
      assert forall r :: 0 <= r < |e.segs| ==> ae.seen[r] == ae.seen[0];
    }
  }

  ghost predicate HasKey(rel: seq<Entry>, key: Key) { exists i :: 0 <= i < |rel| && rel[i].key == key }

  lemma HasKeyNext(rel: seq<Entry>, n: nat, lines: seq<Line>, ls: seq<Line>)
    requires n < |rel| && (forall l :: l in lines ==> HasKey(rel[..n], l.key))
    requires forall l :: l in ls ==> l.key == rel[n].key
    ensures forall l :: l in lines + ls ==> HasKey(rel[..n + 1], l.key)
  {
    forall l | l in lines + ls ensures HasKey(rel[..n + 1], l.key) {
      if l in ls { assert rel[..n + 1][n].key == l.key; }
      else {
        var i :| 0 <= i < n && rel[..n][i].key == l.key;
        assert rel[..n + 1][i].key == l.key;
      }
    }
  }

  lemma KeysDiffer(rel: seq<Entry>, i: nat, j: nat)
    requires KeysSorted(rel) && i < |rel| && j < |rel| && i != j
    ensures rel[i].key != rel[j].key
  {
    if i < j { assert rel[i].key.Less(rel[j].key); } else { assert rel[j].key.Less(rel[i].key); }
  }

  lemma LinesForNext(rel: seq<Entry>, n: nat, lines: seq<Line>, ls: seq<Line>, i: nat)
    requires KeysSorted(rel) && n < |rel| && i < |rel| && forall l :: l in ls ==> l.key == rel[n].key
    requires LinesFor(lines, rel[n].key) == []
    ensures LinesFor(lines + ls, rel[i].key) == if i == n then ls else LinesFor(lines, rel[i].key)
  {
    LinesForAppend(lines, ls, rel[i].key);
    LinesForOne(ls, rel[n].key, rel[i].key);
    if i != n { KeysDiffer(rel, i, n); }
  }

  ghost predicate EntryMapped(place: map<nat, Segment>, e: Entry) { forall s :: s in e.segs ==> Mapped(place, s) }

  /** The lines emitted for the key of `e` serve its ranges. */
  ghost predicate Served(place: map<nat, Segment>, e: Entry, lines: seq<Line>) {
    EntryMapped(place, e) && Describes(place, e.segs, LinesFor(lines, e.key))
  }

  lemma ServedNext(rel: seq<Entry>, n: nat, place: map<nat, Segment>, lines: seq<Line>, ls: seq<Line>, i: nat)
    requires KeysSorted(rel) && i <= n < |rel| && (forall l :: l in ls ==> l.key == rel[n].key)
    requires LinesFor(lines, rel[n].key) == []
    requires i < n ==> Served(place, rel[i], lines)
    requires i == n ==> EntryMapped(place, rel[n]) && Describes(place, rel[n].segs, ls)
    ensures Served(place, rel[i], lines + ls)
  {
    LinesForNext(rel, n, lines, ls, i);
  }

  /** The lines of the first `n` keys have been emitted. */
  ghost predicate Emitted(rel: seq<Entry>, n: nat, place: map<nat, Segment>, lines: seq<Line>)
    requires n <= |rel|
  {
    && (forall i :: 0 <= i < n ==> Served(place, rel[i], lines))
    && (forall i :: n <= i < |rel| ==> LinesFor(lines, rel[i].key) == [])
    && (forall l :: l in lines ==> HasKey(rel[..n], l.key))
  }

  lemma EmittedNext(rel: seq<Entry>, n: nat, place: map<nat, Segment>, lines: seq<Line>, ls: seq<Line>)
    requires KeysSorted(rel) && n < |rel| && (forall l :: l in ls ==> l.key == rel[n].key)
    requires Emitted(rel, n, place, lines) && EntryMapped(place, rel[n]) && Describes(place, rel[n].segs, ls)
    ensures Emitted(rel, n + 1, place, lines + ls)
  {
    forall i | 0 <= i <= n ensures Served(place, rel[i], lines + ls) { ServedNext(rel, n, place, lines, ls, i); }
    forall i | n < i < |rel| ensures LinesFor(lines + ls, rel[i].key) == [] { LinesForNext(rel, n, lines, ls, i); }
    HasKeyNext(rel, n, lines, ls);
  }

  method Remap(rel: seq<Entry>, place: map<nat, Segment>) returns (lines: seq<Line>)
    requires KeysSorted(rel)
    requires forall i :: 0 <= i < |rel| ==> EntryMapped(place, rel[i])
    ensures forall i :: 0 <= i < |rel| ==> Served(place, rel[i], lines)
    ensures forall l :: l in lines ==> HasKey(rel, l.key)
  {
    lines := [];
    for n := 0 to |rel|
      invariant Emitted(rel, n, place, lines)
    {
      assert EntryMapped(place, rel[n]);
      var ls := RemapEntry(rel[n], place);
      EmittedNext(rel, n, place, lines, ls);
      lines := lines + ls;
    }
    assert rel[..|rel|] == rel;
  }
}
