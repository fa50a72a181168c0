/** The driver of the repair pass and the way back into the compiler: `RepairPass` (postprocess/Repair.cpp)
    puts the lines of all allocations into one file, `PCInfo` and `UnrollLoopPass` hand them to copies. */
module RepairFile {
  import opened Options
  import opened Sorting
  import opened Segments
  import opened Layout
  import opened Relocation
  import opened Exactness
  import opened Repair
  import opened LoopIR
  import opened Unroll
  import opened UnrollTrips
  import opened Divisors
  import opened Redirects

  /** What became of one allocation. */
  datatype Repaired = Repaired(rel: seq<Entry>, plan: Relocation.Plan, lines: seq<Line>)

  ghost predicate Kept(r: Repaired) {
    && Repairs(r.rel, r.plan, r.lines)
    && (forall key {:trigger Recorded(r.rel, key)} :: StartsSorted(Recorded(r.rel, key)))
  }

  function AllLines(rs: seq<Repaired>): seq<Line> {
    if rs == [] then [] else AllLines(rs[..|rs| - 1]) + rs[|rs| - 1].lines
  }

  function Entered(l: Line): PcLine { PcLine(l.key.tid, Redirect(l.from, l.to)) }

  /** The lines of one program counter. */
  function PcLines(lines: seq<Line>, pc: PC): seq<PcLine> {
    if lines == [] then []
    else
      var n := |lines| - 1;
      if lines[n].key.pc == pc then PcLines(lines[..n], pc) + [Entered(lines[n])] else PcLines(lines[..n], pc)
  }

  lemma {:induction false} PcLinesAppend(a: seq<Line>, b: seq<Line>, pc: PC)
    ensures PcLines(a + b, pc) == PcLines(a, pc) + PcLines(b, pc)
  {
    if b == [] { assert a + b == a; }
    else {
      var n := |b| - 1;
      assert (a + b)[..|a + b| - 1] == a + b[..n];
      PcLinesAppend(a, b[..n], pc);
    }
  }

  function Pairs(ls: seq<Line>): (rs: seq<Redirect>)
    ensures |rs| == |ls| && forall i :: 0 <= i < |ls| ==> rs[i] == Redirect(ls[i].from, ls[i].to)
  {
    seq(|ls|, i requires 0 <= i < |ls| => Redirect(ls[i].from, ls[i].to))
  }

  lemma {:induction false} ReadBack(lines: seq<Line>, key: Key)
    ensures Of(PcLines(lines, key.pc), key.tid) == Pairs(LinesFor(lines, key))
  {
    if lines != [] {
      var n := |lines| - 1;
      ReadBack(lines[..n], key);
      if lines[n].key.pc == key.pc {
        var ps := PcLines(lines, key.pc);
        assert ps[..|ps| - 1] == PcLines(lines[..n], key.pc);
      }
    }
  }

  // ---- the driver ----------------------------------------------------------------------------------------------

  datatype Allocation = Allocation(accesses: seq<Access>, pc: PC, size: nat)

  /** An allocation site whose size changes. */
  datatype Resized = Resized(pc: PC, size: nat, newSize: nat)

  predicate Acceptable(analysis: Option<Analysis>, a: Allocation) {
    && a.accesses != [] && Usable(RuleFor(analysis, a.pc))
    && (forall x :: x in a.accesses ==> x.seg.Nonempty() && x.key.tid < 31)
  }

  /** `r` is the repair of allocation `a`. */
  ghost predicate RepairOf(analysis: Option<Analysis>, a: Allocation, r: Repaired) {
    && Acceptable(analysis, a) && Kept(r) && ThreadsExact(r.rel, r.plan.merged) && Determined(r.rel, r.plan)
    && (forall key :: Joins(RangesFor(TakenAll(RuleFor(analysis, a.pc), a.accesses), key), Recorded(r.rel, key)))
    && (forall key ::
        Recorded(r.rel, key) == Chained(Sorted(RangesFor(TakenAll(RuleFor(analysis, a.pc), a.accesses), key))))
  }

  ghost predicate RepairsOf(analysis: Option<Analysis>, input: seq<Allocation>, rs: seq<Repaired>) {
    |rs| == |input| && forall i :: 0 <= i < |input| ==> RepairOf(analysis, input[i], rs[i])
  }

  ghost function SizeChange(a: Allocation, r: Repaired): seq<Resized> {
    var size := NewSize(r.plan.groups);
    if size >= 0 && size != a.size then [Resized(a.pc, a.size, size)] else []
  }

  /** The sites whose size is not the repaired one. */
  ghost function Changed(input: seq<Allocation>, rs: seq<Repaired>): seq<Resized>
    requires |rs| == |input|
  {
    if input == [] then []
    else
      var n := |input| - 1;
      Changed(input[..n], rs[..n]) + SizeChange(input[n], rs[n])
  }

  predicate LineBefore(a: PcLine, b: PcLine) {
    a.tid < b.tid || (a.tid == b.tid && RedirectBefore(a.redirect, b.redirect))
  }

  /** `std::sort` on the triples of one program counter. */
  function Printed(lines: seq<PcLine>): (r: seq<PcLine>)
    ensures Ordered(LineBefore, r) && multiset(r) == multiset(lines)
  {
    SortContents(LineBefore, lines);
    Sort(LineBefore, lines)
  }

  function At(m: map<PC, seq<PcLine>>, pc: PC): seq<PcLine> { if pc in m then m[pc] else [] }

  /** Insertion into the multimap: equal keys stay in the order of insertion. */
  function AddLine(m: map<PC, seq<PcLine>>, l: Line): map<PC, seq<PcLine>> {
    m[l.key.pc := At(m, l.key.pc) + [Entered(l)]]
  }

  ghost predicate Extends(m0: map<PC, seq<PcLine>>, m: map<PC, seq<PcLine>>, lines: seq<Line>) {
    forall pc :: At(m, pc) == At(m0, pc) + PcLines(lines, pc)
  }

  lemma EnterOne(m0: map<PC, seq<PcLine>>, m: map<PC, seq<PcLine>>, lines: seq<Line>, i: nat)
    requires i < |lines| && Extends(m0, m, lines[..i])
    ensures Extends(m0, AddLine(m, lines[i]), lines[..i + 1])
  {
    var m', l := AddLine(m, lines[i]), lines[i];
    assert lines[..i + 1][..i] == lines[..i];
    forall pc ensures At(m', pc) == At(m0, pc) + PcLines(lines[..i + 1], pc) {
      assert At(m, pc) == At(m0, pc) + PcLines(lines[..i], pc);
      if pc == l.key.pc { assert At(m', pc) == At(m, pc) + [Entered(l)]; } else { assert At(m', pc) == At(m, pc); }
    }
  }

  lemma RepairsNext(analysis: Option<Analysis>, input: seq<Allocation>, i: nat, rs: seq<Repaired>, r: Repaired)
    requires i < |input| && RepairsOf(analysis, input[..i], rs) && RepairOf(analysis, input[i], r)
    ensures RepairsOf(analysis, input[..i + 1], rs + [r])
    ensures Changed(input[..i + 1], rs + [r]) == Changed(input[..i], rs) + SizeChange(input[i], r)
  {
    assert input[..i + 1][..i] == input[..i] && (rs + [r])[..i] == rs;
  }

  lemma ExtendsBoth(m0: map<PC, seq<PcLine>>, m1: map<PC, seq<PcLine>>, m2: map<PC, seq<PcLine>>,
                    a: seq<Line>, b: seq<Line>)
    requires Extends(m0, m1, a) && Extends(m1, m2, b)
    ensures Extends(m0, m2, a + b)
  {
    forall pc ensures At(m2, pc) == At(m0, pc) + PcLines(a + b, pc) {
      PcLinesAppend(a, b, pc);
      InTwoSteps(At(m0, pc), At(m1, pc), At(m2, pc), PcLines(a, pc), PcLines(b, pc));
    }
  }

  lemma InTwoSteps<T>(s0: seq<T>, s1: seq<T>, s2: seq<T>, xs: seq<T>, ys: seq<T>)
    requires s1 == s0 + xs && s2 == s1 + ys
    ensures s2 == s0 + (xs + ys)
  {
  }

  lemma AllLinesNext(rs: seq<Repaired>, r: Repaired)
    ensures AllLines(rs + [r]) == AllLines(rs) + r.lines
  {
    assert (rs + [r])[..|rs|] == rs;
  }

  class RepairPass {
    const input: seq<Allocation>
    const analysis: Option<Analysis>
    var allPcsLayout: map<PC, seq<PcLine>>
    var allFixedMallocs: seq<Resized>
    ghost var repaired: seq<Repaired>

    constructor (input: seq<Allocation>, analysis: Option<Analysis>)
      ensures this.input == input && this.analysis == analysis
      ensures allPcsLayout == map[] && allFixedMallocs == [] && repaired == []
    {
      this.input, this.analysis, allPcsLayout, allFixedMallocs, repaired := input, analysis, map[], [], [];
    }

    method InsertLines(lines: seq<Line>)
      modifies this`allPcsLayout
      ensures Extends(old(allPcsLayout), allPcsLayout, lines)
    {
      for i := 0 to |lines|
        invariant Extends(old(allPcsLayout), allPcsLayout, lines[..i])
      {
        EnterOne(old(allPcsLayout), allPcsLayout, lines, i);
        allPcsLayout := AddLine(allPcsLayout, lines[i]);
      }
      assert lines[..|lines|] == lines;
    }

    /** One round of `compute`. */
    method RepairOne(a: Allocation) returns (ghost r: Repaired)
      requires Acceptable(analysis, a)
      modifies this`allPcsLayout, this`allFixedMallocs
      ensures RepairOf(analysis, a, r) && allFixedMallocs == old(allFixedMallocs) + SizeChange(a, r)
      ensures Extends(old(allPcsLayout), allPcsLayout, r.lines)
    {
      var layout := new LayoutPass(a.accesses, a.pc, analysis);
      InsertLines(layout.remappingLines);
      if layout.afterMapped != a.size {
        allFixedMallocs := allFixedMallocs + [Resized(a.pc, a.size, layout.afterMapped)];
      }
      r := Repaired(layout.accessRelation, layout.plan, layout.remappingLines);
    }

    method Compute()
      requires allPcsLayout == map[] && allFixedMallocs == []
      requires forall a :: a in input ==> Acceptable(analysis, a)
      modifies this
      ensures RepairsOf(analysis, input, repaired) && allFixedMallocs == Changed(input, repaired)
      ensures Extends(map[], allPcsLayout, AllLines(repaired))
    {
      repaired := [];
      for i := 0 to |input|
        invariant RepairsOf(analysis, input[..i], repaired) && allFixedMallocs == Changed(input[..i], repaired)
        invariant Extends(map[], allPcsLayout, AllLines(repaired))
      {
        assert input[i] in input;
        ghost var before := allPcsLayout;
        ghost var r := RepairOne(input[i]);
        RepairsNext(analysis, input, i, repaired, r);
        ExtendsBoth(map[], before, allPcsLayout, AllLines(repaired), r.lines);
        AllLinesNext(repaired, r);
        repaired := repaired + [r];
      }
      assert input[..|input|] == input;
    }

    /** `print_layout`: the lines of each program counter, sorted. */
    method PrintLayout() returns (file: map<PC, seq<PcLine>>)
      ensures forall pc :: At(file, pc) == Printed(At(allPcsLayout, pc))
    {
      file := map pc | pc in allPcsLayout :: Printed(allPcsLayout[pc]);
    }
  }

  // ---- what one thread's copy of an instruction is handed ---------------------------------------------------------

  /** The lines the compiler pass uses for one thread: read from the file, grouped by thread, sorted. */
  function Handed(rs: seq<Repaired>, key: Key): seq<Redirect> {
    Arranged(Of(Printed(PcLines(AllLines(rs), key.pc)), key.tid))
  }

  /** `PCInfo` and `getThreaded`: what the pass gives to one thread's copy of an instruction. */
  method GetThreaded(file: map<PC, seq<PcLine>>, key: Key) returns (rs: seq<Redirect>)
    ensures rs == Arranged(Of(At(file, key.pc), key.tid))
  {
    var info := BuildInfo(At(file, key.pc));
    rs := if key.tid in info then info[key.tid] else [];
  }

  /** Writing the file and reading it back gives the lines of all allocations. */
  lemma FileHands(rs: seq<Repaired>, layout: map<PC, seq<PcLine>>, file: map<PC, seq<PcLine>>, key: Key)
    requires Extends(map[], layout, AllLines(rs)) && At(file, key.pc) == Printed(At(layout, key.pc))
    ensures Arranged(Of(At(file, key.pc), key.tid)) == Handed(rs, key)
  {
    assert At(layout, key.pc) == At(map[], key.pc) + PcLines(AllLines(rs), key.pc);
    assert At(layout, key.pc) == PcLines(AllLines(rs), key.pc);
  }

  lemma {:induction false} OfCount(lines: seq<PcLine>, t: nat, r: Redirect)
    ensures multiset(Of(lines, t))[r] == multiset(lines)[PcLine(t, r)]
  {
    if lines != [] {
      var n := |lines| - 1;
      assert lines == lines[..n] + [lines[n]];
      OfCount(lines[..n], t, r);
    }
  }

  /** The order of the lines in the file does not matter. */
  lemma FileOrder(a: seq<PcLine>, b: seq<PcLine>, t: nat)
    requires multiset(a) == multiset(b)
    ensures Arranged(Of(a, t)) == Arranged(Of(b, t))
  {
    forall r ensures multiset(Of(a, t))[r] == multiset(Of(b, t))[r] {
      OfCount(a, t, r);
      OfCount(b, t, r);
    }
    assert multiset(Of(a, t)) == multiset(Of(b, t));
    SortUnique(RedirectBefore, Of(a, t), Of(b, t));
  }

  /** The lines of all allocations for one key, ordered by source offset. */
  function LinesOfAll(rs: seq<Repaired>, key: Key): seq<Redirect> { Arranged(Pairs(LinesFor(AllLines(rs), key))) }

  /** A thread is handed exactly its lines from all allocations, in the order of their source offsets. */
  lemma HandedLines(rs: seq<Repaired>, key: Key)
    ensures Handed(rs, key) == LinesOfAll(rs, key)
  {
    var lines := PcLines(AllLines(rs), key.pc);
    FileOrder(Printed(lines), lines, key.tid);
    ReadBack(AllLines(rs), key);
  }

  /** How far the copy that runs as iteration `k + 1` moves its address. */
  function Move(rs: seq<Redirect>, k: nat): int
    requires rs != []
  {
    rs[k % |rs|].to - rs[k % |rs|].from
  }

  function OwnLines(r: Repaired, key: Key): seq<Redirect> { Pairs(LinesFor(r.lines, key)) }

  ghost predicate Records(r: Repaired, key: Key) { Recorded(r.rel, key) != [] }

  /** The repair pass emits the lines of a key in the order in which they are sorted later. */
  lemma LinesInOrder(r: Repaired, key: Key)
    requires Kept(r)
    ensures Ordered(RedirectBefore, OwnLines(r, key))
  {
    assert RepairsKey(r.rel, r.plan, r.lines, key);
    DescribedInOrder(r.plan.place, Recorded(r.rel, key), LinesFor(r.lines, key));
  }

  lemma DescribedInOrder(place: map<nat, Segment>, segs: seq<Segment>, ls: seq<Line>)
    requires (forall s :: s in segs ==> Layout.Mapped(place, s)) && Describes(place, segs, ls) && StartsSorted(segs)
    ensures Ordered(RedirectBefore, Pairs(ls))
  {
    forall i | 0 < i < |ls| ensures !RedirectBefore(Pairs(ls)[i], Pairs(ls)[i - 1]) {
      assert LineIndex(ls, i) == i && LineIndex(ls, i - 1) == i - 1;
      assert segs[i - 1].start <= segs[i].start;
    }
  }

  lemma MoveOwn(ls: seq<Line>, k: nat)
    requires |ls| == 1 || k < |ls|
    ensures Move(Pairs(ls), k) == ls[LineIndex(ls, k)].to - ls[LineIndex(ls, k)].from
  {
    if k < |ls| { ModIs(k, |ls|, 0, k); }
  }

  /** An allocation's own lines relocate its ranges. */
  lemma OwnRelocates(r: Repaired, key: Key, k: nat, x: int)
    requires Kept(r) && k < |Recorded(r.rel, key)| && Recorded(r.rel, key)[k].Contains(x)
    ensures x >= 0 && CoveredByte(r.plan, x)
    ensures OwnLines(r, key) != [] && x + Move(OwnLines(r, key), k) == Reloc(r.plan, x)
  {
    var segs, ls := Recorded(r.rel, key), LinesFor(r.lines, key);
    assert RepairsKey(r.rel, r.plan, r.lines, key);
    RedirectIsReloc(r.plan, segs, ls, k, x);
    MoveOwn(ls, k);
  }

  lemma RangeNonempty(r: Repaired, key: Key, k: nat)
    requires Kept(r) && k < |Recorded(r.rel, key)|
    ensures Recorded(r.rel, key)[k].Contains(Recorded(r.rel, key)[k].start)
  {
    assert RepairsKey(r.rel, r.plan, r.lines, key);
    assert Recorded(r.rel, key)[k] in Recorded(r.rel, key);
  }

  lemma SilentUnlessRecorded(r: Repaired, key: Key)
    requires Kept(r)
    ensures Records(r, key) <==> OwnLines(r, key) != []
  {
    assert RepairsKey(r.rel, r.plan, r.lines, key);
  }

  ghost predicate AllKept(rs: seq<Repaired>) { forall j :: 0 <= j < |rs| ==> Kept(rs[j]) }

  ghost predicate MovedAt(handed: seq<Redirect>, plan: Relocation.Plan, k: nat, x: int) {
    handed != [] && x >= 0 && x + Move(handed, k) == Reloc(plan, x)
  }

  /** Iteration `k + 1` works on recorded range `k`. With the lines `handed`, does every byte of that range of
      allocation `r` go to its new place? */
  ghost predicate Relocates(handed: seq<Redirect>, r: Repaired, key: Key) {
    forall k: nat, x: int :: k < |Recorded(r.rel, key)| && Recorded(r.rel, key)[k].Contains(x) ==>
      MovedAt(handed, r.plan, k, x)
  }

  ghost predicate AgreesAt(handed: seq<Redirect>, own: seq<Redirect>, k: nat) {
    handed != [] && own != [] && Move(handed, k) == Move(own, k)
  }

  /** The line handed out for a range moves as far as the allocation's own line for it. */
  ghost predicate Agrees(handed: seq<Redirect>, r: Repaired, key: Key) {
    forall k: nat :: k < |Recorded(r.rel, key)| ==> AgreesAt(handed, OwnLines(r, key), k)
  }

  /** Redirection is the relocation of an allocation exactly when the lines handed out agree with its own. */
  lemma RelocatesIff(handed: seq<Redirect>, r: Repaired, key: Key)
    requires Kept(r)
    ensures Relocates(handed, r, key) <==> Agrees(handed, r, key)
  {
    var segs := Recorded(r.rel, key);
    if Agrees(handed, r, key) {
      forall k: nat, x: int | k < |segs| && segs[k].Contains(x) ensures MovedAt(handed, r.plan, k, x) {
        assert AgreesAt(handed, OwnLines(r, key), k);
        OwnRelocates(r, key, k, x);
      }
    }
    if Relocates(handed, r, key) {
      forall k: nat | k < |segs| ensures AgreesAt(handed, OwnLines(r, key), k) {
        RangeNonempty(r, key, k);
        assert MovedAt(handed, r.plan, k, segs[k].start);
        OwnRelocates(r, key, k, segs[k].start);
      }
    }
  }

  /** Every allocation recorded for the key is relocated by the lines the thread is handed. */
  ghost predicate Right(rs: seq<Repaired>, key: Key) {
    forall j :: 0 <= j < |rs| ==> Relocates(Handed(rs, key), rs[j], key)
  }

  /** Line `k` of all allocations together moves as far as line `k` of each allocation that has such a range. */
  ghost predicate Compatible(rs: seq<Repaired>, key: Key) {
    forall j :: 0 <= j < |rs| ==> Agrees(LinesOfAll(rs, key), rs[j], key)
  }

  lemma RightIff(rs: seq<Repaired>, key: Key)
    requires AllKept(rs)
    ensures Right(rs, key) <==> Compatible(rs, key)
  {
    HandedLines(rs, key);
    forall j | 0 <= j < |rs| ensures Relocates(Handed(rs, key), rs[j], key) <==> Agrees(Handed(rs, key), rs[j], key) {
      RelocatesIff(Handed(rs, key), rs[j], key);
    }
  }

  // ---- one allocation ------------------------------------------------------------------------------------------

  ghost predicate OnlyRecorder(rs: seq<Repaired>, key: Key, j: nat) {
    j < |rs| && forall i :: 0 <= i < |rs| && i != j ==> !Records(rs[i], key)
  }

  lemma {:induction false} LoneLines(rs: seq<Repaired>, key: Key, j: nat)
    requires AllKept(rs) && OnlyRecorder(rs, key, j)
    ensures LinesFor(AllLines(rs), key) == LinesFor(rs[j].lines, key)
  {
    var n := |rs| - 1;
    LinesForAppend(AllLines(rs[..n]), rs[n].lines, key);
    if j < n {
      SilentUnlessRecorded(rs[n], key);
      LoneLines(rs[..n], key, j);
    } else {
      NoneLines(rs[..n], key);
    }
  }

  lemma {:induction false} NoneLines(rs: seq<Repaired>, key: Key)
    requires AllKept(rs) && forall i :: 0 <= i < |rs| ==> !Records(rs[i], key)
    ensures LinesFor(AllLines(rs), key) == []
  {
    if rs != [] {
      var n := |rs| - 1;
      LinesForAppend(AllLines(rs[..n]), rs[n].lines, key);
      SilentUnlessRecorded(rs[n], key);
      NoneLines(rs[..n], key);
    }
  }

  /** An instruction that one thread uses on one repaired allocation is redirected rightly. */
  lemma LoneRight(rs: seq<Repaired>, key: Key, j: nat)
    requires AllKept(rs) && OnlyRecorder(rs, key, j)
    ensures Handed(rs, key) == OwnLines(rs[j], key) && Right(rs, key)
  {
    HandedLines(rs, key);
    LoneLines(rs, key, j);
    LinesInOrder(rs[j], key);
    SortFixes(RedirectBefore, OwnLines(rs[j], key));
    forall i | 0 <= i < |rs| ensures Agrees(LinesOfAll(rs, key), rs[i], key) {
      SilentUnlessRecorded(rs[i], key);
      assert i != j ==> !Records(rs[i], key);
    }
    RightIff(rs, key);
  }

  // ---- several allocations -----------------------------------------------------------------------------------------

  lemma FirstMove(handed: seq<Redirect>, r: Repaired, key: Key)
    requires Agrees(handed, r, key) && Records(r, key)
    ensures AgreesAt(handed, OwnLines(r, key), 0)
  {
  }

  /** Two allocations whose first ranges move differently cannot both be served by one file. */
  lemma DisagreeWrong(rs: seq<Repaired>, key: Key, i: nat, j: nat)
    requires AllKept(rs) && i < |rs| && j < |rs| && Records(rs[i], key) && Records(rs[j], key)
    requires OwnLines(rs[i], key) != [] && OwnLines(rs[j], key) != []
    requires Move(OwnLines(rs[i], key), 0) != Move(OwnLines(rs[j], key), 0)
    ensures !Right(rs, key)
  {
    RightIff(rs, key);
    if Compatible(rs, key) {
      FirstMove(LinesOfAll(rs, key), rs[i], key);
      FirstMove(LinesOfAll(rs, key), rs[j], key);
    }
  }

  /** Put into one file, two such allocations spoil each other, although each alone is redirected rightly. */
  lemma PairWrong(a: Repaired, b: Repaired, key: Key)
    requires Kept(a) && Kept(b) && Records(a, key) && Records(b, key)
    requires OwnLines(a, key) != [] && OwnLines(b, key) != [] && Move(OwnLines(a, key), 0) != Move(OwnLines(b, key), 0)
    ensures Right([a], key) && Right([b], key) && !Right([a, b], key)
  {
    LoneRight([a], key, 0);
    LoneRight([b], key, 0);
    DisagreeWrong([a, b], key, 0, 1);
  }

  /** All lines of an allocation for the key move by `d`. */
  ghost predicate Uniform(ls: seq<Line>, d: int) { forall l :: l in ls ==> l.to - l.from == d }

  lemma {:induction false} UniformAll(rs: seq<Repaired>, key: Key, d: int)
    requires forall j :: 0 <= j < |rs| ==> Uniform(LinesFor(rs[j].lines, key), d)
    ensures Uniform(LinesFor(AllLines(rs), key), d)
  {
    if rs != [] {
      var n := |rs| - 1;
      LinesForAppend(AllLines(rs[..n]), rs[n].lines, key);
      UniformAll(rs[..n], key, d);
    }
  }

  lemma UniformMoves(rs: seq<Repaired>, key: Key, d: int)
    requires Uniform(LinesFor(AllLines(rs), key), d)
    ensures forall r :: r in LinesOfAll(rs, key) ==> r.to - r.from == d
  {
    var ps := Pairs(LinesFor(AllLines(rs), key));
    forall r | r in LinesOfAll(rs, key) ensures r.to - r.from == d {
      assert r in multiset(Arranged(ps));
      var i :| 0 <= i < |ps| && ps[i] == r;
      assert LinesFor(AllLines(rs), key)[i] in LinesFor(AllLines(rs), key);
    }
  }

  /** One displacement for all allocations recorded for the key. */
  ghost predicate SameMove(rs: seq<Repaired>, key: Key, d: int) {
    forall j :: 0 <= j < |rs| ==> Uniform(LinesFor(rs[j].lines, key), d)
  }

  lemma SameMoveRight(rs: seq<Repaired>, key: Key, d: int)
    requires AllKept(rs) && SameMove(rs, key, d)
    ensures Right(rs, key)
  {
    UniformAll(rs, key, d);
    UniformMoves(rs, key, d);
    forall j | 0 <= j < |rs| ensures Agrees(LinesOfAll(rs, key), rs[j], key) {
      forall k: nat | k < |Recorded(rs[j].rel, key)| ensures AgreesAt(LinesOfAll(rs, key), OwnLines(rs[j], key), k) {
        SilentUnlessRecorded(rs[j], key);
        AllLinesMany(rs, key, j);
        UniformMove(LinesFor(rs[j].lines, key), d, k);
      }
    }
    RightIff(rs, key);
  }

  lemma UniformMove(ls: seq<Line>, d: int, k: nat)
    requires Uniform(ls, d) && ls != []
    ensures Move(Pairs(ls), k) == d
  {
    assert ls[k % |ls|] in ls;
  }

  lemma {:induction false} AllLinesHas(rs: seq<Repaired>, key: Key, j: nat)
    requires j < |rs|
    ensures |LinesFor(AllLines(rs), key)| >= |LinesFor(rs[j].lines, key)|
  {
    var n := |rs| - 1;
    LinesForAppend(AllLines(rs[..n]), rs[n].lines, key);
    if j < n { AllLinesHas(rs[..n], key, j); }
  }

  lemma AllLinesMany(rs: seq<Repaired>, key: Key, j: nat)
    requires j < |rs|
    ensures |LinesOfAll(rs, key)| >= |OwnLines(rs[j], key)|
  {
    AllLinesHas(rs, key, j);
  }

  /** Each allocation has at most one line for the key: the usual case, one field of a shared structure. */
  ghost predicate OneLineEach(rs: seq<Repaired>, key: Key) {
    forall j :: 0 <= j < |rs| ==> |OwnLines(rs[j], key)| <= 1
  }

  /** All ranges of the allocation recorded for the key move by the same distance. */
  ghost predicate MovesAlike(r: Repaired, key: Key) {
    AllSheltered(r.plan, Recorded(r.rel, key)) && ShiftAlike(r.plan.place, Recorded(r.rel, key))
  }

  /** There is at most one line exactly if the ranges move alike. */
  lemma OneLineMeans(r: Repaired, key: Key)
    requires Kept(r)
    ensures |OwnLines(r, key)| <= 1 <==> MovesAlike(r, key)
  {
    assert RepairsKey(r.rel, r.plan, r.lines, key);
  }

  lemma OneLineMove(handed: seq<Redirect>, r: Repaired, key: Key, d: int)
    requires Kept(r) && |OwnLines(r, key)| <= 1 && Agrees(handed, r, key) && (handed != [] ==> d == Move(handed, 0))
    ensures Uniform(LinesFor(r.lines, key), d)
  {
    SilentUnlessRecorded(r, key);
    if Records(r, key) {
      FirstMove(handed, r, key);
      assert |LinesFor(r.lines, key)| == 1;
    }
  }

  lemma OneLineMoves(rs: seq<Repaired>, key: Key) returns (d: int)
    requires AllKept(rs) && OneLineEach(rs, key) && Right(rs, key)
    ensures SameMove(rs, key, d)
  {
    RightIff(rs, key);
    var handed := LinesOfAll(rs, key);
    d := if handed == [] then 0 else Move(handed, 0);
    forall j | 0 <= j < |rs| ensures Uniform(LinesFor(rs[j].lines, key), d) { OneLineMove(handed, rs[j], key, d); }
  }

  /** If no allocation has more than one line for the key, redirection is right exactly when they all move alike. */
  lemma OneLineIff(rs: seq<Repaired>, key: Key)
    requires AllKept(rs) && OneLineEach(rs, key)
    ensures Right(rs, key) <==> exists d :: SameMove(rs, key, d)
  {
    if d :| SameMove(rs, key, d) { SameMoveRight(rs, key, d); }
    if Right(rs, key) { var d := OneLineMoves(rs, key); }
  }

  /** The same, read off the ranges: in each allocation those of the key move alike. */
  lemma AlikeIff(rs: seq<Repaired>, key: Key)
    requires AllKept(rs) && forall j :: 0 <= j < |rs| ==> MovesAlike(rs[j], key)
    ensures Right(rs, key) <==> exists d :: SameMove(rs, key, d)
  {
    forall j | 0 <= j < |rs| ensures |OwnLines(rs[j], key)| <= 1 { OneLineMeans(rs[j], key); }
    OneLineIff(rs, key);
  }

  // ---- from the file to the copies ----------------------------------------------------------------------------------

  /** Iterations and ranges with the same remainder are served by the same of `n` lines. With one line every iteration
      serves every range. */
  predicate SameLine(n: nat, r: nat, k: nat) { n > 0 && r % n == k % n }

  lemma SameLineMoves(rs: seq<Redirect>, r: nat, k: nat)
    requires SameLine(|rs|, r, k)
    ensures rs != [] && Move(rs, r) == Move(rs, k)
  {
  }

  /** The copy that runs as iteration `k + 1` of a hooked instruction carries a line, and adding its displacement
      moves every byte of the recorded ranges of allocation `j` that this line serves to its new place. A loop that is
      not unrolled is its own single copy. */
  lemma CopiesRelocate(rs: seq<Repaired>, key: Key, l: Loop, u: Program, insts: map<nat, Threaded>, count: nat,
                       complete: bool, table: map<Value, Expanded>, h: nat, j: nat, r: nat, k: nat, x: int)
    requires AllKept(rs) && Compatible(rs, key)
    requires InSsa(l) && IsUnrolled(l, count, complete, u) && SameSize(insts, count)
    requires Tabled(insts, insts.Keys, count, table)
    requires h in insts && |l.phis| <= h < |l.phis| + |l.body| && insts[h] == Lines(Handed(rs, key))
    requires j < |rs| && r < |Recorded(rs[j].rel, key)| && Recorded(rs[j].rel, key)[r].Contains(x)
    requires SameLine(count, r, k)
    ensures var v := u.copies[LoopIR.Slot(u, k + 1)][h - |l.phis|].dst;
            && v == Local(h, k % count) && v in table && table[v].Offset? && x >= 0
            && x + (table[v].redirect.to - table[v].redirect.from) == Reloc(rs[j].plan, x)
  {
    RightIff(rs, key);
    assert Relocates(Handed(rs, key), rs[j], key);
    assert MovedAt(Handed(rs, key), rs[j].plan, r, x);
    SameLineMoves(Handed(rs, key), r, k);
    Aligned(l, u, insts, count, complete, table, h, k);
  }

  // ---- programs with several repaired allocations -------------------------------------------------------------------

  /** An access to allocation `block`, inside the range recorded for its iteration. */
  ghost predicate Recording(rs: seq<Repaired>, block: nat, e: Event) { block < |rs| && Within(rs[block].rel, e) }

  /** Where the access goes in the repaired program. */
  ghost function Target(rs: seq<Repaired>, e: Event): int {
    if Handed(rs, e.key) == [] then e.x else e.x + Move(Handed(rs, e.key), e.r)
  }

  type Memory = (nat, int) -> int

  function WriteTo(mem: Memory, block: nat, a: int, v: int): Memory {
    (b: nat, y) => if b == block && y == a then v else mem(b, y)
  }

  /** The values loaded, in order; `moved` says whether addresses are redirected. */
  ghost function LoadsOf(rs: seq<Repaired>, moved: bool, mem: Memory, trace: seq<(nat, Event)>): seq<int> {
    if trace == [] then []
    else
      var (block, e) := trace[0];
      var a := if moved then Target(rs, e) else e.x;
      match e
      case Load(_, _, _) => [mem(block, a)] + LoadsOf(rs, moved, mem, trace[1..])
      case Store(_, _, _, v) => LoadsOf(rs, moved, WriteTo(mem, block, a, v), trace[1..])
  }

  /** Every covered byte of every allocation holds its value at its new place. */
  ghost predicate SameBlocks(rs: seq<Repaired>, mem: Memory, mem': Memory) {
    forall j, x: nat :: 0 <= j < |rs| && CoveredByte(rs[j].plan, x) ==> mem'(j, Reloc(rs[j].plan, x)) == mem(j, x)
  }

  lemma AccessMoves(rs: seq<Repaired>, block: nat, e: Event)
    requires AllKept(rs) && Compatible(rs, e.key) && Recording(rs, block, e)
    ensures e.x >= 0 && CoveredByte(rs[block].plan, e.x) && Target(rs, e) == Reloc(rs[block].plan, e.x)
  {
    RightIff(rs, e.key);
    assert Relocates(Handed(rs, e.key), rs[block], e.key);
    assert MovedAt(Handed(rs, e.key), rs[block].plan, e.r, e.x);
    OwnRelocates(rs[block], e.key, e.r, e.x);
  }

  lemma WriteMoves(rs: seq<Repaired>, mem: Memory, mem': Memory, block: nat, x: nat, v: int)
    requires AllKept(rs) && SameBlocks(rs, mem, mem') && block < |rs| && CoveredByte(rs[block].plan, x)
    ensures SameBlocks(rs, WriteTo(mem, block, x, v), WriteTo(mem', block, Reloc(rs[block].plan, x), v))
  {
    forall j, y: nat | 0 <= j < |rs| && CoveredByte(rs[j].plan, y)
      ensures WriteTo(mem', block, Reloc(rs[block].plan, x), v)(j, Reloc(rs[j].plan, y)) ==
                WriteTo(mem, block, x, v)(j, y)
    {
      if j == block && y != x { RelocInjective(rs[j].plan, x, y); }
    }
  }

  /** Every interleaving of accesses to all repaired allocations, inside the recorded ranges and by instructions
      whose lines are compatible, reads the same values after redirection by the common file. */
  lemma {:induction false} FilePreserves(rs: seq<Repaired>, mem: Memory, mem': Memory, trace: seq<(nat, Event)>)
    requires AllKept(rs) && SameBlocks(rs, mem, mem')
    requires forall i :: 0 <= i < |trace| ==> Recording(rs, trace[i].0, trace[i].1) && Compatible(rs, trace[i].1.key)
    ensures LoadsOf(rs, false, mem, trace) == LoadsOf(rs, true, mem', trace)
  {
    if trace != [] {
      var (block, e) := trace[0];
      AccessMoves(rs, block, e);
      match e
      case Load(_, _, x) => FilePreserves(rs, mem, mem', trace[1..]);
      case Store(_, _, x, v) =>
        WriteMoves(rs, mem, mem', block, x, v);
        FilePreserves(rs, WriteTo(mem, block, x, v), WriteTo(mem', block, Target(rs, e), v), trace[1..]);
    }
  }
}
