/** Search and removal in the tree of free blocks: `btree_search`, `btree_node_del`,
    `btree_node_del_aux` and `btree_merge_aux` (others/tmi/src/ll_alloc.c). */
module BTreeDelete {
  import opened Options
  import opened BTree
  import opened BTreeInsert

  // ---- search ---------------------------------------------------------------------------------------

  /** A leaf is named by the indices on the way down to it. */
  ghost predicate IsPath(es: seq<Entry>, h: nat, path: seq<nat>)
    decreases h
  {
    && |path| == h + 1 && path[0] < |es|
    && (h > 0 ==> es[path[0]].child.Node? && IsPath(es[path[0]].child.es, h - 1, path[1..]))
  }

  /** The block at the end of a path. */
  function At(es: seq<Entry>, h: nat, path: seq<nat>): Block
    requires IsPath(es, h, path) && OkAll(es, h)
    decreases h
  {
    assert OkEntry(es[path[0]], h) && Ok(es[path[0]].child, h);
    if h == 0 then es[path[0]].child.block else At(es[path[0]].child.es, h - 1, path[1..])
  }

  /** Its position in the list of blocks. */
  function Index(es: seq<Entry>, h: nat, path: seq<nat>): nat
    requires IsPath(es, h, path)
    decreases h
  {
    |FlatAll(es[..path[0]])| + if h == 0 then 0 else Index(es[path[0]].child.es, h - 1, path[1..])
  }

  lemma {:induction false} IndexAt(es: seq<Entry>, h: nat, path: seq<nat>)
    requires IsPath(es, h, path) && OkAll(es, h)
    ensures Index(es, h, path) < |FlatAll(es)| && FlatAll(es)[Index(es, h, path)] == At(es, h, path)
    decreases h
  {
    var c := path[0];
    FlatAround(es, c);
    assert OkEntry(es[c], h) && Ok(es[c].child, h);
    if h > 0 {
      IndexAt(es[c].child.es, h - 1, path[1..]);
      assert Flat(es[c].child) == FlatAll(es[c].child.es);
    } else {
      assert Flat(es[c].child) == [es[c].child.block];
    }
  }

  /** `btree_search`: down through the first large enough key of each node. */
  function Search(es: seq<Entry>, h: nat, size: nat): Option<seq<nat>>
    requires OkAll(es, h)
    decreases h
  {
    var p := Pos(es, size);
    if p == |es| then None
    else if h == 0 then Some([p])
    else
      assert OkEntry(es[p], h) && Ok(es[p].child, h);
      match Search(es[p].child.es, h - 1, size)
      case None => None
      case Some(path) => Some([p] + path)
  }

  /** Position of the first block of size at least `size`, the length if there is none. */
  function FirstFit(s: seq<Block>, size: nat): nat {
    if s == [] || s[0].size >= size then 0 else 1 + FirstFit(s[1..], size)
  }

  lemma {:induction false} FirstFitSkip(a: seq<Block>, s: seq<Block>, size: nat)
    requires AllLess(a, size)
    ensures FirstFit(a + s, size) == |a| + FirstFit(s, size)
  {
    if a == [] { assert a + s == s; }
    else {
      assert (a + s)[1..] == a[1..] + s;
      FirstFitSkip(a[1..], s, size);
    }
  }

  lemma {:induction false} FirstFitStop(s: seq<Block>, r: seq<Block>, size: nat)
    requires SomeAtLeast(s, size)
    ensures FirstFit(s + r, size) == FirstFit(s, size) < |s|
  {
    if s[0].size < size {
      assert (s + r)[1..] == s[1..] + r;
      var i :| 0 <= i < |s| && s[i].size >= size;
      assert s[1..][i - 1].size >= size;
      FirstFitStop(s[1..], r, size);
    }
  }

  /** The search agrees with a scan of the list. */
  ghost predicate Finds(es: seq<Entry>, h: nat, size: nat, r: Option<seq<nat>>) {
    match r
    case None => FirstFit(FlatAll(es), size) == |FlatAll(es)|
    case Some(path) => IsPath(es, h, path) && Index(es, h, path) == FirstFit(FlatAll(es), size) < |FlatAll(es)|
  }

  /** The scan, seen from the entry that `btree_search` picks. */
  lemma ScanAround(es: seq<Entry>, h: nat, size: nat)
    requires OkAll(es, h) && SortedBlocks(FlatAll(es))
    ensures var p := Pos(es, size);
            if p == |es| then FirstFit(FlatAll(es), size) == |FlatAll(es)|
            else && FirstFit(FlatAll(es), size) == |FlatAll(es[..p])| + FirstFit(Flat(es[p].child), size)
                 && FirstFit(Flat(es[p].child), size) < |Flat(es[p].child)| && SortedBlocks(Flat(es[p].child))
                 && |FlatAll(es[..p])| + |Flat(es[p].child)| <= |FlatAll(es)|
  {
    var p := Pos(es, size);
    BelowKeys(es, h, p, size);
    if p == |es| {
      assert es[..p] == es;
      FirstFitSkip(FlatAll(es), [], size);
      assert FlatAll(es) + [] == FlatAll(es);
    } else {
      AtKey(es[p], h, size);
      FlatAround(es, p);
      var a, f, r := FlatAll(es[..p]), Flat(es[p].child), FlatAll(es[p + 1..]);
      assert a + f + r == a + (f + r);
      FirstFitSkip(a, f + r, size);
      FirstFitStop(f, r, size);
      SortedMiddle(a, f, r);
    }
  }

  lemma {:induction false} SearchFinds(es: seq<Entry>, h: nat, size: nat)
    requires OkAll(es, h) && SortedBlocks(FlatAll(es))
    ensures Finds(es, h, size, Search(es, h, size))
    decreases h
  {
    ScanAround(es, h, size);
    var p := Pos(es, size);
    if p < |es| {
      assert OkEntry(es[p], h) && Ok(es[p].child, h);
      if h > 0 {
        SearchFinds(es[p].child.es, h - 1, size);
        assert Flat(es[p].child) == FlatAll(es[p].child.es);
        match Search(es[p].child.es, h - 1, size)
        case None =>
        case Some(path) => assert ([p] + path)[1..] == path;
      } else {
        assert Flat(es[p].child) == [es[p].child.block];
      }
    }
  }

  /** The first fit in a sorted list is the smallest block that is large enough. */
  lemma {:induction false} FirstFitBest(s: seq<Block>, size: nat)
    requires SortedBlocks(s)
    ensures var k := FirstFit(s, size);
            && k <= |s|
            && (forall i :: 0 <= i < k ==> s[i].size < size)
            && (k < |s| ==> s[k].size >= size)
            && (k < |s| ==> forall i :: 0 <= i < |s| && s[i].size >= size ==> s[k].size <= s[i].size)
  {
    if s != [] && s[0].size < size { FirstFitBest(s[1..], size); }
  }

  // ---- removal ---------------------------------------------------------------------------------------

  function Without<T>(s: seq<T>, i: nat): seq<T>
    requires i < |s|
  {
    s[..i] + s[i + 1..]
  }

  /** The outcome at one node; `up` as in `Inserted`. */
  datatype Removed = Removed(es: seq<Entry>, up: Option<nat>)

  /** `btree_merge_aux` on two neighbours, one of which has become too small: a third of the larger
      one moves over, or both become one node. */
  function MergePair(bl: seq<Entry>, br: seq<Entry>, keyR: nat): seq<Entry> {
    if |bl| + |br| > BT_MAX then
      if |br| > |bl| then
        var k := |br| / 3;
        var bl' := bl + br[..k];
        [Entry(bl'[|bl'| - 1].key, Node(bl')), Entry(keyR, Node(br[k..]))]
      else
        var k := |bl| / 3;
        var bl' := bl[..|bl| - k];
        [Entry(bl'[|bl'| - 1].key, Node(bl')), Entry(keyR, Node(bl[|bl| - k..] + br))]
    else [Entry(keyR, Node(bl + br))]
  }

  predicate HasKids(e: Entry) { e.child.Node? }

  function MergeKids(es: seq<Entry>, l: nat): seq<Entry>
    requires l + 1 < |es| && HasKids(es[l]) && HasKids(es[l + 1])
  {
    es[..l] + MergePair(es[l].child.es, es[l + 1].child.es, es[l + 1].key) + es[l + 2..]
  }

  /** `btree_node_del_aux`: with the right neighbour if there is one, else with the left one. */
  function Rebalance(es: seq<Entry>, c: nat): seq<Entry>
    requires c < |es| && forall i :: 0 <= i < |es| ==> HasKids(es[i])
  {
    if c + 1 < |es| then MergeKids(es, c) else if c > 0 then MergeKids(es, c - 1) else es
  }

  lemma KidsOf(es: seq<Entry>, h: nat)
    requires OkAll(es, h) && h > 0
    ensures forall i :: 0 <= i < |es| ==> HasKids(es[i])
  {
    forall i | 0 <= i < |es| ensures HasKids(es[i]) {
      assert OkEntry(es[i], h);
      assert Ok(es[i].child, h);
    }
  }

  /** `btree_node_del` from the leaf upwards. */
  function DeleteAt(es: seq<Entry>, h: nat, path: seq<nat>): Removed
    requires IsPath(es, h, path) && OkAll(es, h)
    decreases h
  {
    var c := path[0];
    var last := c == |es| - 1;
    if h == 0 then
      var k := Without(es, c);
      Removed(k, if last && k != [] then Some(k[|k| - 1].key) else None)
    else
      assert OkEntry(es[c], h) && Ok(es[c].child, h);
      var d := DeleteAt(es[c].child.es, h - 1, path[1..]);
      var es1 := es[c := Entry(KeyAfter(es[c].key, d.up), Node(d.es))];
      if |d.es| > 3 then Removed(es1, Propagate(d.up, last))
      else
        KidsOf(es, h);
        Removed(Rebalance(es1, c), Propagate(d.up, last))
  }

  /** What merging two neighbours must deliver. */
  ghost predicate Merged(bl: seq<Entry>, br: seq<Entry>, h: nat, r: seq<Entry>) {
    && OkAll(r, h + 1) && FlatAll(r) == FlatAll(bl) + FlatAll(br)
    && 1 <= |r| <= 2 && br != [] && r[|r| - 1].key == br[|br| - 1].key
  }

  /** Entries may be dealt out differently between two neighbours, as long as their order stays. */
  lemma Regroup(bl: seq<Entry>, br: seq<Entry>, l: seq<Entry>, r: seq<Entry>, h: nat)
    requires OkAll(bl, h) && OkAll(br, h) && l + r == bl + br
    ensures OkAll(l, h) && OkAll(r, h) && FlatAll(l) + FlatAll(r) == FlatAll(bl) + FlatAll(br)
  {
    OkAppend(bl, br, h);
    FlatAppend(bl, br);
    FlatAppend(l, r);
    forall i | 0 <= i < |l| ensures OkEntry(l[i], h) { assert l[i] == (bl + br)[i]; }
    forall i | 0 <= i < |r| ensures OkEntry(r[i], h) { assert r[i] == (bl + br)[|l| + i]; }
  }

  lemma RegroupKids(bl: seq<Entry>, br: seq<Entry>, l: seq<Entry>, r: seq<Entry>, h: nat)
    requires OkAll(l, h) && OkAll(r, h) && FlatAll(l) + FlatAll(r) == FlatAll(bl) + FlatAll(br)
    requires br != [] && 4 <= |l| <= BT_MAX && 4 <= |r| <= BT_MAX && r[|r| - 1] == br[|br| - 1]
    ensures Merged(bl, br, h, [Entry(l[|l| - 1].key, Node(l)), Entry(br[|br| - 1].key, Node(r))])
  {
    TwoKids(l, r, h);
  }

  lemma PairWith(bl: seq<Entry>, br: seq<Entry>, l: seq<Entry>, r: seq<Entry>, h: nat)
    requires OkAll(bl, h) && OkAll(br, h) && l + r == bl + br && 4 <= |l| <= BT_MAX && 4 <= |r| <= BT_MAX
    requires br != [] && r[|r| - 1] == br[|br| - 1]
    requires MergePair(bl, br, br[|br| - 1].key) == [Entry(l[|l| - 1].key, Node(l)), Entry(br[|br| - 1].key, Node(r))]
    ensures Merged(bl, br, h, MergePair(bl, br, br[|br| - 1].key))
  {
    Regroup(bl, br, l, r, h);
    RegroupKids(bl, br, l, r, h);
  }

  /** A third of the larger neighbour moves over. */
  lemma PairShape(bl: seq<Entry>, br: seq<Entry>) returns (l: seq<Entry>, r: seq<Entry>)
    requires (|bl| == 3 && 13 < |br| <= BT_MAX) || (|br| == 3 && 13 < |bl| <= BT_MAX)
    ensures l + r == bl + br && 4 <= |l| <= BT_MAX && 4 <= |r| <= BT_MAX && r[|r| - 1] == br[|br| - 1]
    ensures MergePair(bl, br, br[|br| - 1].key) == [Entry(l[|l| - 1].key, Node(l)), Entry(br[|br| - 1].key, Node(r))]
  {
    if |bl| == 3 {
      l, r := bl + br[..|br| / 3], br[|br| / 3..];
    } else {
      var m := |bl| - |bl| / 3;
      l, r := bl[..m], bl[m..] + br;
    }
  }

  lemma MergeBoth(bl: seq<Entry>, br: seq<Entry>, h: nat)
    requires OkAll(bl, h) && OkAll(br, h) && 4 <= |bl| + |br| <= BT_MAX && br != []
    ensures Merged(bl, br, h, [Entry(br[|br| - 1].key, Node(bl + br))])
  {
    OkAppend(bl, br, h);
    FlatAppend(bl, br);
    KidEntry(br[|br| - 1].key, bl + br, h);
    FlatOne(Entry(br[|br| - 1].key, Node(bl + br)));
  }

  lemma PairOk(bl: seq<Entry>, br: seq<Entry>, h: nat)
    requires OkAll(bl, h) && OkAll(br, h) && 3 <= |bl| <= BT_MAX && 3 <= |br| <= BT_MAX
    requires (|bl| == 3 && 4 <= |br|) || (|br| == 3 && 4 <= |bl|)
    ensures Merged(bl, br, h, MergePair(bl, br, br[|br| - 1].key))
  {
    if |bl| + |br| > BT_MAX {
      var l, r := PairShape(bl, br);
      PairWith(bl, br, l, r, h);
    } else {
      MergeBoth(bl, br, h);
    }
  }

  lemma TwoKids(l: seq<Entry>, r: seq<Entry>, h: nat)
    requires OkAll(l, h) && OkAll(r, h) && 4 <= |l| <= BT_MAX && 4 <= |r| <= BT_MAX
    ensures var es := [Entry(l[|l| - 1].key, Node(l)), Entry(r[|r| - 1].key, Node(r))];
            OkAll(es, h + 1) && FlatAll(es) == FlatAll(l) + FlatAll(r)
  {
    KidEntry(l[|l| - 1].key, l, h);
    KidEntry(r[|r| - 1].key, r, h);
    var e, f := Entry(l[|l| - 1].key, Node(l)), Entry(r[|r| - 1].key, Node(r));
    FlatAppend([e], [f]);
    FlatOne(e);
    FlatOne(f);
    assert [e] + [f] == [e, f];
  }

  /** An entry whose node may have dropped to three children. */
  predicate Loose(e: Entry, h: nat) {
    && e.child.Node? && 3 <= |e.child.es| <= BT_MAX && OkAll(e.child.es, h)
    && e.key == e.child.es[|e.child.es| - 1].key
  }

  /** Every entry is fine except that entry `c` has dropped to three children. */
  predicate OkBut(es: seq<Entry>, h: nat, c: nat) {
    && c < |es| && Loose(es[c], h) && |es[c].child.es| == 3
    && (forall i :: 0 <= i < |es| && i != c ==> OkEntry(es[i], h + 1))
  }

  lemma OkLoose(e: Entry, h: nat)
    requires OkEntry(e, h + 1)
    ensures Loose(e, h) && 4 <= |e.child.es|
  {
    assert Ok(e.child, h + 1);
    LastKey(e.child.es, h);
  }

  lemma FlatFirst(es: seq<Entry>, l: nat)
    requires l < |es|
    ensures FlatAll(es[l..]) == Flat(es[l].child) + FlatAll(es[l + 1..])
  {}

  lemma FlatAroundTwo(es: seq<Entry>, l: nat)
    requires l + 1 < |es|
    ensures FlatAll(es) == FlatAll(es[..l]) + (Flat(es[l].child) + Flat(es[l + 1].child)) + FlatAll(es[l + 2..])
  {
    FlatAround(es, l);
    FlatFirst(es, l + 1);
    Join(FlatAll(es[..l]), Flat(es[l].child), Flat(es[l + 1].child), FlatAll(es[l + 2..]));
  }

  lemma MergeKidsOk(es: seq<Entry>, h: nat, l: nat, c: nat)
    requires OkBut(es, h, c) && l + 1 < |es| && (c == l || c == l + 1)
    ensures HasKids(es[l]) && HasKids(es[l + 1])
    ensures var r := MergeKids(es, l);
            && OkAll(r, h + 1) && FlatAll(r) == FlatAll(es)
            && |es| - 1 <= |r| <= |es| && r[|r| - 1].key == es[|es| - 1].key
  {
    if c == l { OkLoose(es[l + 1], h); } else { OkLoose(es[l], h); }
    var bl, br := es[l].child.es, es[l + 1].child.es;
    PairOk(bl, br, h);
    var mid := MergePair(bl, br, es[l + 1].key);
    assert OkAll(es[..l], h + 1);
    assert OkAll(es[l + 2..], h + 1);
    OkAppend(es[..l], mid, h + 1);
    OkAppend(es[..l] + mid, es[l + 2..], h + 1);
    FlatAppend(es[..l], mid);
    FlatAppend(es[..l] + mid, es[l + 2..]);
    FlatAroundTwo(es, l);
    assert Flat(es[l].child) == FlatAll(bl) && Flat(es[l + 1].child) == FlatAll(br);
  }

  /** What a removal below a node must deliver: exactly the named block is gone, nodes have legal
      sizes, and the parent is told about the last key exactly when it changes. */
  ghost predicate Drops(es: seq<Entry>, h: nat, path: seq<nat>, r: Removed)
    requires IsPath(es, h, path)
  {
    && OkAll(r.es, h) && |es| - 1 <= |r.es| <= |es|
    && Index(es, h, path) < |FlatAll(es)| && FlatAll(r.es) == Without(FlatAll(es), Index(es, h, path))
    && (r.es != [] ==> r.es[|r.es| - 1].key == NewKey(es, r.up))
  }

  lemma WithoutMiddle<T>(a: seq<T>, f: seq<T>, r: seq<T>, i: nat)
    requires i < |f|
    ensures Without(a + f + r, |a| + i) == a + Without(f, i) + r
  {}

  lemma LeafFlat(es: seq<Entry>, c: nat)
    requires OkAll(es, 0) && c < |es|
    ensures |FlatAll(es[..c])| < |FlatAll(es)| && FlatAll(Without(es, c)) == Without(FlatAll(es), |FlatAll(es[..c])|)
  {
    FlatAround(es, c);
    FlatAppend(es[..c], es[c + 1..]);
    assert OkEntry(es[c], 0);
    assert Flat(es[c].child) == [es[c].child.block];
    WithoutMiddle(FlatAll(es[..c]), [es[c].child.block], FlatAll(es[c + 1..]), 0);
  }

  lemma OkWithout(es: seq<Entry>, h: nat, c: nat)
    requires OkAll(es, h) && c < |es|
    ensures OkAll(Without(es, c), h)
  {}

  lemma DropLeaf(es: seq<Entry>, path: seq<nat>)
    requires OkAll(es, 0) && IsPath(es, 0, path)
    ensures Drops(es, 0, path, DeleteAt(es, 0, path))
  {
    LeafFlat(es, path[0]);
    OkWithout(es, 0, path[0]);
  }

  /** The entry of the child after the removal, before any rebalancing. */
  lemma DropKid(es: seq<Entry>, h: nat, path: seq<nat>, d: Removed)
    requires OkAll(es, h + 1) && IsPath(es, h + 1, path) && Ok(es[path[0]].child, h + 1)
    requires Drops(es[path[0]].child.es, h, path[1..], d)
    ensures var e := Entry(KeyAfter(es[path[0]].key, d.up), Node(d.es));
            && Loose(e, h)
            && Index(es, h + 1, path) < |FlatAll(es)|
            && FlatAll(es[path[0] := e]) == Without(FlatAll(es), Index(es, h + 1, path))
  {
    var c := path[0];
    OkLoose(es[c], h);
    var e := Entry(KeyAfter(es[c].key, d.up), Node(d.es));
    FlatAround(es, c);
    FlatReplace(es, c, e);
    assert Flat(es[c].child) == FlatAll(es[c].child.es) && Flat(e.child) == FlatAll(d.es);
    WithoutMiddle(FlatAll(es[..c]), FlatAll(es[c].child.es), FlatAll(es[c + 1..]), Index(es[c].child.es, h, path[1..]));
  }

  lemma LooseOk(e: Entry, h: nat)
    requires Loose(e, h) && |e.child.es| > 3
    ensures OkEntry(e, h + 1)
  {
    KidEntry(e.key, e.child.es, h);
  }

  /** Enough children are left. */
  lemma DropKeeps(es: seq<Entry>, h: nat, path: seq<nat>, d: Removed)
    requires OkAll(es, h + 1) && IsPath(es, h + 1, path) && Ok(es[path[0]].child, h + 1)
    requires Drops(es[path[0]].child.es, h, path[1..], d) && |d.es| > 3
    ensures var c := path[0];
            Drops(es, h + 1, path,
                  Removed(es[c := Entry(KeyAfter(es[c].key, d.up), Node(d.es))], Propagate(d.up, c == |es| - 1)))
  {
    var c := path[0];
    var e := Entry(KeyAfter(es[c].key, d.up), Node(d.es));
    DropKid(es, h, path, d);
    LooseOk(e, h);
    OkReplace(es, c, e, h + 1);
  }

  lemma LooseBut(es: seq<Entry>, h: nat, c: nat, e: Entry)
    requires OkAll(es, h + 1) && c < |es| && Loose(e, h) && |e.child.es| == 3
    ensures var es1 := es[c := e]; OkBut(es1, h, c) && forall i :: 0 <= i < |es1| ==> HasKids(es1[i])
  {
    var es1 := es[c := e];
    KidsOf(es, h + 1);
    forall i | 0 <= i < |es1| && i != c ensures OkEntry(es1[i], h + 1) { assert es1[i] == es[i]; }
  }

  lemma RebalanceOk(es: seq<Entry>, h: nat, c: nat)
    requires OkBut(es, h, c) && |es| >= 2 && forall i :: 0 <= i < |es| ==> HasKids(es[i])
    ensures var r := Rebalance(es, c);
            && OkAll(r, h + 1) && FlatAll(r) == FlatAll(es)
            && |es| - 1 <= |r| <= |es| && r[|r| - 1].key == es[|es| - 1].key
  {
    MergeKidsOk(es, h, if c + 1 < |es| then c else c - 1, c);
  }

  /** The child has three children left and is rebalanced. */
  lemma DropMerges(es: seq<Entry>, h: nat, path: seq<nat>, d: Removed)
    requires OkAll(es, h + 1) && IsPath(es, h + 1, path) && |es| >= 2 && Ok(es[path[0]].child, h + 1)
    requires Drops(es[path[0]].child.es, h, path[1..], d) && |d.es| <= 3
    ensures var c := path[0];
            var es1 := es[c := Entry(KeyAfter(es[c].key, d.up), Node(d.es))];
            && (forall i :: 0 <= i < |es1| ==> HasKids(es1[i]))
            && Drops(es, h + 1, path, Removed(Rebalance(es1, c), Propagate(d.up, c == |es| - 1)))
  {
    var c := path[0];
    var e := Entry(KeyAfter(es[c].key, d.up), Node(d.es));
    DropKid(es, h, path, d);
    LooseBut(es, h, c, e);
    RebalanceOk(es[c := e], h, c);
  }

  lemma DropInner(es: seq<Entry>, h: nat, path: seq<nat>)
    requires OkAll(es, h + 1) && IsPath(es, h + 1, path) && |es| >= 2 && Ok(es[path[0]].child, h + 1)
    requires Drops(es[path[0]].child.es, h, path[1..], DeleteAt(es[path[0]].child.es, h, path[1..]))
    ensures Drops(es, h + 1, path, DeleteAt(es, h + 1, path))
  {
    var d := DeleteAt(es[path[0]].child.es, h, path[1..]);
    if |d.es| > 3 { DropKeeps(es, h, path, d); } else { DropMerges(es, h, path, d); }
  }

  lemma KidPath(es: seq<Entry>, h: nat, path: seq<nat>)
    requires OkAll(es, h + 1) && IsPath(es, h + 1, path)
    ensures var kid := es[path[0]].child;
            Ok(kid, h + 1) && OkAll(kid.es, h) && |kid.es| >= 2 && IsPath(kid.es, h, path[1..])
  {}

  /** Removal below any well-formed node refines removal from the list. */
  lemma {:induction false} DeleteDrops(es: seq<Entry>, h: nat, path: seq<nat>)
    requires OkAll(es, h) && IsPath(es, h, path) && (h > 0 ==> |es| >= 2)
    ensures Drops(es, h, path, DeleteAt(es, h, path))
    decreases h
  {
    if h == 0 { DropLeaf(es, path); }
    else {
      KidPath(es, h - 1, path);
      DeleteDrops(es[path[0]].child.es, h - 1, path[1..]);
      DropInner(es, h - 1, path);
    }
  }

  /** A root with a single inner child: the child may drop to three entries. */
  lemma DeleteLone(es: seq<Entry>, h: nat, path: seq<nat>)
    requires OkAll(es, h + 1) && IsPath(es, h + 1, path) && |es| == 1
    ensures var r := DeleteAt(es, h + 1, path).es;
            && |r| == 1 && Loose(r[0], h)
            && Index(es, h + 1, path) < |FlatAll(es)| && FlatAll(r) == Without(FlatAll(es), Index(es, h + 1, path))
  {
    assert OkEntry(es[0], h + 1);
    assert Ok(es[0].child, h + 1);
    DeleteDrops(es[0].child.es, h, path[1..]);
    DropKid(es, h, path, DeleteAt(es[0].child.es, h, path[1..]));
  }
}
