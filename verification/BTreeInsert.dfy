/** Insertion into the tree of free blocks: `btree_find`, `btree_node_insert` and the splits of
    `btree_node_insert_aux` (others/tmi/src/ll_alloc.c). */
module BTreeInsert {
  import opened Options
  import opened BTree

  // ---- the reference: a sorted list ---------------------------------------------------------------

  /** Insertion before the first block that is at least as large. */
  function InsertFlat(s: seq<Block>, b: Block): seq<Block> {
    if s == [] || s[0].size >= b.size then [b] + s else [s[0]] + InsertFlat(s[1..], b)
  }

  predicate AllLess(s: seq<Block>, size: nat) { forall i :: 0 <= i < |s| ==> s[i].size < size }

  predicate SomeAtLeast(s: seq<Block>, size: nat) { exists i :: 0 <= i < |s| && s[i].size >= size }

  lemma {:induction false} InsertFlatContents(s: seq<Block>, b: Block)
    ensures multiset(InsertFlat(s, b)) == multiset(s) + multiset{b}
  {
    if s != [] && s[0].size < b.size {
      InsertFlatContents(s[1..], b);
      assert s == [s[0]] + s[1..];
    }
  }

  lemma {:induction false} InsertFlatLow(s: seq<Block>, b: Block, low: nat)
    requires low <= b.size && forall i :: 0 <= i < |s| ==> low <= s[i].size
    ensures forall i :: 0 <= i < |InsertFlat(s, b)| ==> low <= InsertFlat(s, b)[i].size
  {
    if s != [] && s[0].size < b.size { InsertFlatLow(s[1..], b, low); }
  }

  /** Sorted insertion keeps the list sorted. */
  lemma {:induction false} InsertFlatSorted(s: seq<Block>, b: Block)
    requires SortedBlocks(s)
    ensures SortedBlocks(InsertFlat(s, b))
  {
    if s != [] && s[0].size < b.size {
      InsertFlatSorted(s[1..], b);
      InsertFlatLow(s[1..], b, s[0].size);
    }
  }

  lemma {:induction false} InsertFlatRight(a: seq<Block>, s: seq<Block>, b: Block)
    requires AllLess(a, b.size)
    ensures InsertFlat(a + s, b) == a + InsertFlat(s, b)
  {
    if a == [] { assert a + s == s; }
    else {
      assert (a + s)[1..] == a[1..] + s;
      InsertFlatRight(a[1..], s, b);
    }
  }

  lemma {:induction false} InsertFlatLeft(s: seq<Block>, r: seq<Block>, b: Block)
    requires SomeAtLeast(s, b.size) || r == []
    ensures InsertFlat(s + r, b) == InsertFlat(s, b) + r
  {
    if r == [] {
      assert s + r == s;
    } else if s[0].size < b.size {
      assert (s + r)[1..] == s[1..] + r;
      var i :| 0 <= i < |s| && s[i].size >= b.size;
      assert s[1..][i - 1].size >= b.size;
      InsertFlatLeft(s[1..], r, b);
    }
  }

  // ---- one node ------------------------------------------------------------------------------------

  /** The scan of `btree_search` through one node: first entry whose key is at least `size`. */
  function Pos(es: seq<Entry>, size: nat): (p: nat)
    ensures p <= |es|
    ensures forall i :: 0 <= i < p ==> es[i].key < size
    ensures p < |es| ==> es[p].key >= size
  {
    if es == [] || es[0].key >= size then 0
    else
      var q := Pos(es[1..], size);
      assert forall i :: 1 <= i < 1 + q ==> es[i] == es[1..][i - 1];
      1 + q
  }

  /** The outcome at one node. `up` is the new key for the parent, if it must change. A split
      moves the lower half into a new node placed before this one. */
  datatype Inserted =
    | Fit(es: seq<Entry>, up: Option<nat>)
    | Split(left: seq<Entry>, right: seq<Entry>, up: Option<nat>)

  /** `btree_node_insert`: a new entry at position `p`; a full node is split. */
  function PutAt(es: seq<Entry>, p: nat, e: Entry): Inserted
    requires p <= |es| <= BT_MAX
  {
    var all := es[..p] + [e] + es[p..];
    var up := if p == |es| then Some(e.key) else None;
    if |es| < BT_MAX then Fit(all, up)
    else
      var m := if p == BT_MAX / 2 then BT_MAX / 2 + 1 else BT_MAX / 2;
      Split(all[..m], all[m..], up)
  }

  function KeyAfter(key: nat, up: Option<nat>): nat { if up.Some? then up.value else key }

  /** Keys of the chain above are only touched while the changed entry is last in its node. */
  function Propagate(up: Option<nat>, last: bool): Option<nat> { if last then up else None }

  function WithUp(r: Inserted, up: Option<nat>): Inserted { r.(up := up) }

  /** What the node makes of its child's outcome. */
  function Above(es: seq<Entry>, c: nat, r: Inserted): Inserted
    requires c < |es| <= BT_MAX
  {
    var last := c == |es| - 1;
    match r
    case Fit(kid, up) => Fit(es[c := Entry(KeyAfter(es[c].key, up), Node(kid))], Propagate(up, last))
    case Split(left, right, up) =>
      var es1 := es[c := Entry(KeyAfter(es[c].key, up), Node(right))];
      var key := if left == [] then 0 else left[|left| - 1].key;
      WithUp(PutAt(es1, c, Entry(key, Node(left))), Propagate(up, last))
  }

  /** Insertion below a node whose children have height `h`. */
  function InsertAt(es: seq<Entry>, h: nat, b: Block): Inserted
    requires |es| <= BT_MAX && OkAll(es, h) && (h > 0 ==> es != [])
    decreases h
  {
    if h == 0 then PutAt(es, Pos(es, b.size), Entry(b.size, Leaf(b)))
    else
      var c := Child(es, b.size);
      assert OkEntry(es[c], h) && Ok(es[c].child, h);
      Above(es, c, InsertAt(es[c].child.es, h - 1, b))
  }

  /** The child to descend into: the first with a large enough key, else the last. */
  function Child(es: seq<Entry>, size: nat): nat
    requires es != []
  {
    var p := Pos(es, size);
    if p < |es| then p else |es| - 1
  }

  // ---- correctness ----------------------------------------------------------------------------------

  /** What an insertion below a node must deliver: the list with the block inserted, nodes of legal
      size, and a last key that the parent is told about exactly when it changes. */
  ghost predicate Delivers(es: seq<Entry>, h: nat, flat: seq<Block>, r: Inserted) {
    match r
    case Fit(k, up) =>
      && |es| <= |k| <= BT_MAX && k != [] && OkAll(k, h) && FlatAll(k) == flat
      && k[|k| - 1].key == NewKey(es, up)
    case Split(left, right, up) =>
      && 8 <= |left| <= 9 && 8 <= |right| <= 9 && OkAll(left, h) && OkAll(right, h)
      && FlatAll(left) + FlatAll(right) == flat
      && right[|right| - 1].key == NewKey(es, up)
  }

  function NewKey(es: seq<Entry>, up: Option<nat>): nat {
    if up.Some? then up.value else if es == [] then 0 else es[|es| - 1].key
  }

  lemma PutAtAll(es: seq<Entry>, p: nat, e: Entry, h: nat)
    requires p <= |es| && OkAll(es, h) && OkEntry(e, h)
    ensures var all := es[..p] + [e] + es[p..];
            OkAll(all, h) && FlatAll(all) == FlatAll(es[..p]) + Flat(e.child) + FlatAll(es[p..])
  {
    var all := es[..p] + [e] + es[p..];
    FlatAround(all, p);
    assert all[..p] == es[..p] && all[p + 1..] == es[p..];
    forall i | 0 <= i < |all| ensures OkEntry(all[i], h) {
      if i < p { assert all[i] == es[i]; } else if i > p { assert all[i] == es[i - 1]; }
    }
  }

  lemma SplitAll(all: seq<Entry>, m: nat, h: nat)
    requires m <= |all| && OkAll(all, h)
    ensures OkAll(all[..m], h) && OkAll(all[m..], h) && FlatAll(all[..m]) + FlatAll(all[m..]) == FlatAll(all)
  {
    assert all == all[..m] + all[m..];
    FlatAppend(all[..m], all[m..]);
    OkSlice(all, h, 0, m);
    OkSlice(all, h, m, |all|);
    assert all[..m] == all[0..m] && all[m..] == all[m..|all|];
  }

  lemma PutLast<T>(s: seq<T>, p: nat, x: T)
    requires p <= |s|
    ensures var all := s[..p] + [x] + s[p..]; |all| == |s| + 1 && all[|s|] == if p == |s| then x else s[|s| - 1]
  {}

  lemma PutAtFits(es: seq<Entry>, p: nat, e: Entry, h: nat)
    requires p <= |es| < BT_MAX && OkAll(es, h) && OkEntry(e, h)
    ensures Delivers(es, h, FlatAll(es[..p]) + Flat(e.child) + FlatAll(es[p..]), PutAt(es, p, e))
  {
    PutAtAll(es, p, e, h);
    PutLast(es, p, e);
  }

  lemma Halves(es: seq<Entry>, all: seq<Entry>, m: nat, h: nat, flat: seq<Block>, up: Option<nat>)
    requires |all| == 17 && 8 <= m <= 9 && OkAll(all, h) && FlatAll(all) == flat && all[16].key == NewKey(es, up)
    ensures Delivers(es, h, flat, Split(all[..m], all[m..], up))
  {
    SplitAll(all, m, h);
    assert all[m..][16 - m] == all[16];
  }

  lemma PutAtSplits(es: seq<Entry>, p: nat, e: Entry, h: nat)
    requires p <= |es| == BT_MAX && OkAll(es, h) && OkEntry(e, h)
    ensures Delivers(es, h, FlatAll(es[..p]) + Flat(e.child) + FlatAll(es[p..]), PutAt(es, p, e))
  {
    PutAtAll(es, p, e, h);
    PutLast(es, p, e);
    Halves(es, es[..p] + [e] + es[p..], if p == 8 then 9 else 8, h,
           FlatAll(es[..p]) + Flat(e.child) + FlatAll(es[p..]), PutAt(es, p, e).up);
  }

  lemma PutAtDelivers(es: seq<Entry>, p: nat, e: Entry, h: nat)
    requires p <= |es| <= BT_MAX && OkAll(es, h) && OkEntry(e, h)
    ensures Delivers(es, h, FlatAll(es[..p]) + Flat(e.child) + FlatAll(es[p..]), PutAt(es, p, e))
  {
    if |es| < BT_MAX { PutAtFits(es, p, e, h); } else { PutAtSplits(es, p, e, h); }
  }

  /** Entries with smaller keys hold only smaller blocks. */
  lemma BelowKeys(es: seq<Entry>, h: nat, p: nat, size: nat)
    requires OkAll(es, h) && SortedBlocks(FlatAll(es)) && p <= |es|
    requires forall i :: 0 <= i < p ==> es[i].key < size
    ensures AllLess(FlatAll(es[..p]), size)
  {
    if p > 0 {
      assert es == es[..p] + es[p..];
      FlatAppend(es[..p], es[p..]);
      var a := FlatAll(es[..p]);
      assert forall i, j :: 0 <= i < j < |a| ==> FlatAll(es)[i] == a[i] && FlatAll(es)[j] == a[j];
      OkSlice(es, h, 0, p);
      assert es[..p] == es[0..p];
      LastKey(es[..p], h);
    }
  }

  lemma AtKey(e: Entry, h: nat, size: nat)
    requires OkEntry(e, h) && e.key >= size
    ensures SomeAtLeast(Flat(e.child), size)
  {
    FlatLarge(e.child, h);
    var f := Flat(e.child);
    assert f[|f| - 1].size >= size;
  }

  lemma InsertMiddle(a: seq<Block>, f: seq<Block>, r: seq<Block>, b: Block)
    requires AllLess(a, b.size) && (SomeAtLeast(f, b.size) || r == [])
    ensures InsertFlat(a + f + r, b) == a + InsertFlat(f, b) + r
  {
    assert a + f + r == a + (f + r);
    InsertFlatRight(a, f + r, b);
    InsertFlatLeft(f, r, b);
  }

  lemma SortedMiddle(a: seq<Block>, f: seq<Block>, r: seq<Block>)
    requires SortedBlocks(a + f + r)
    ensures SortedBlocks(f)
  {
    forall i, j | 0 <= i < j < |f| ensures f[i].size <= f[j].size {
      assert (a + f + r)[|a| + i] == f[i] && (a + f + r)[|a| + j] == f[j];
    }
  }

  /** Where the block goes, seen from one node. */
  lemma InsertAround(es: seq<Entry>, h: nat, b: Block)
    requires OkAll(es, h) && es != [] && SortedBlocks(FlatAll(es))
    ensures var c := Child(es, b.size);
            && InsertFlat(FlatAll(es), b) == FlatAll(es[..c]) + InsertFlat(Flat(es[c].child), b) + FlatAll(es[c + 1..])
            && SortedBlocks(Flat(es[c].child))
  {
    var c := Child(es, b.size);
    BelowKeys(es, h, c, b.size);
    if Pos(es, b.size) < |es| { AtKey(es[c], h, b.size); }
    FlatAround(es, c);
    InsertMiddle(FlatAll(es[..c]), Flat(es[c].child), FlatAll(es[c + 1..]), b);
    SortedMiddle(FlatAll(es[..c]), Flat(es[c].child), FlatAll(es[c + 1..]));
  }

  lemma InsertBefore(a: seq<Block>, r: seq<Block>, b: Block)
    requires AllLess(a, b.size) && (r != [] ==> r[0].size >= b.size)
    ensures InsertFlat(a + r, b) == a + [b] + r
  {
    InsertFlatRight(a, r, b);
  }

  lemma FirstBlock(es: seq<Entry>, p: nat)
    requires OkAll(es, 0) && p < |es|
    ensures FlatAll(es[p..]) != [] && FlatAll(es[p..])[0].size == es[p].key
  {}

  lemma InsertLeaf(es: seq<Entry>, b: Block)
    requires |es| <= BT_MAX && OkAll(es, 0) && SortedBlocks(FlatAll(es))
    ensures Delivers(es, 0, InsertFlat(FlatAll(es), b), InsertAt(es, 0, b))
  {
    var p := Pos(es, b.size);
    var e := Entry(b.size, Leaf(b));
    assert Flat(e.child) == [b];
    PutAtDelivers(es, p, e, 0);
    BelowKeys(es, 0, p, b.size);
    if p < |es| { FirstBlock(es, p); }
    InsertBefore(FlatAll(es[..p]), FlatAll(es[p..]), b);
    assert es == es[..p] + es[p..];
    FlatAppend(es[..p], es[p..]);
  }

  lemma KidEntry(key: nat, kid: seq<Entry>, h: nat)
    requires 4 <= |kid| <= BT_MAX && OkAll(kid, h) && key == kid[|kid| - 1].key
    ensures OkEntry(Entry(key, Node(kid)), h + 1)
  {
    LastKey(kid, h);
    assert Flat(Node(kid)) == FlatAll(kid);
  }

  lemma InsertFits(es: seq<Entry>, h: nat, c: nat, kid: seq<Entry>, up: Option<nat>, kidFlat: seq<Block>)
    requires OkAll(es, h + 1) && c < |es| <= BT_MAX
    requires es[c].child.Node? && Ok(es[c].child, h + 1) && Delivers(es[c].child.es, h, kidFlat, Fit(kid, up))
    ensures Delivers(es, h + 1, FlatAll(es[..c]) + kidFlat + FlatAll(es[c + 1..]),
                     Fit(es[c := Entry(KeyAfter(es[c].key, up), Node(kid))], Propagate(up, c == |es| - 1)))
  {
    assert OkEntry(es[c], h + 1);
    LastKey(es[c].child.es, h);
    var e := Entry(KeyAfter(es[c].key, up), Node(kid));
    KidEntry(e.key, kid, h);
    OkReplace(es, c, e, h + 1);
    FlatReplace(es, c, e);
  }

  lemma Redeliver(es: seq<Entry>, es1: seq<Entry>, h: nat, flat: seq<Block>, r: Inserted, up: Option<nat>)
    requires Delivers(es1, h, flat, r) && r.up == None && |es1| == |es| > 0
    requires es1[|es1| - 1].key == NewKey(es, up)
    ensures Delivers(es, h, flat, WithUp(r, up))
  {}

  lemma SplitKid(es: seq<Entry>, h: nat, c: nat, left: seq<Entry>, right: seq<Entry>, up: Option<nat>,
                 kidFlat: seq<Block>)
    requires OkAll(es, h + 1) && c < |es|
    requires Ok(es[c].child, h + 1) && Delivers(es[c].child.es, h, kidFlat, Split(left, right, up))
    ensures OkAll(es[c := Entry(KeyAfter(es[c].key, up), Node(right))], h + 1)
    ensures OkEntry(Entry(left[|left| - 1].key, Node(left)), h + 1)
  {
    assert OkEntry(es[c], h + 1);
    LastKey(es[c].child.es, h);
    KidEntry(KeyAfter(es[c].key, up), right, h);
    KidEntry(left[|left| - 1].key, left, h);
    OkReplace(es, c, Entry(KeyAfter(es[c].key, up), Node(right)), h + 1);
  }

  lemma SplitLast(es: seq<Entry>, h: nat, c: nat, e: Entry, up: Option<nat>)
    requires c < |es| && e.key == KeyAfter(es[c].key, up)
    ensures es[c := e][|es| - 1].key == NewKey(es, Propagate(up, c == |es| - 1))
  {}

  lemma SplitDelivers(es: seq<Entry>, h: nat, c: nat, e: Entry, e': Entry, up: Option<nat>)
    requires c < |es| <= BT_MAX && OkAll(es[c := e], h) && OkEntry(e', h) && e.key == KeyAfter(es[c].key, up)
    ensures var es1 := es[c := e];
            Delivers(es, h, FlatAll(es1[..c]) + Flat(e'.child) + FlatAll(es1[c..]),
                     WithUp(PutAt(es1, c, e'), Propagate(up, c == |es| - 1)))
  {
    var es1 := es[c := e];
    PutAtDelivers(es1, c, e', h);
    assert PutAt(es1, c, e').up == None;
    SplitLast(es, h, c, e, up);
    Redeliver(es, es1, h, FlatAll(es1[..c]) + Flat(e'.child) + FlatAll(es1[c..]), PutAt(es1, c, e'),
              Propagate(up, c == |es| - 1));
  }

  lemma InsertSplits(es: seq<Entry>, h: nat, c: nat, left: seq<Entry>, right: seq<Entry>, up: Option<nat>,
                     kidFlat: seq<Block>)
    requires OkAll(es, h + 1) && c < |es| <= BT_MAX
    requires Ok(es[c].child, h + 1) && Delivers(es[c].child.es, h, kidFlat, Split(left, right, up))
    ensures var es1 := es[c := Entry(KeyAfter(es[c].key, up), Node(right))];
            Delivers(es, h + 1, FlatAll(es[..c]) + kidFlat + FlatAll(es[c + 1..]),
                     WithUp(PutAt(es1, c, Entry(left[|left| - 1].key, Node(left))), Propagate(up, c == |es| - 1)))
  {
    var e, e' := Entry(KeyAfter(es[c].key, up), Node(right)), Entry(left[|left| - 1].key, Node(left));
    var es1 := es[c := e];
    SplitKid(es, h, c, left, right, up, kidFlat);
    SplitDelivers(es, h + 1, c, e, e', up);
    SplitFlat(es, c, left, right, e, e');
  }

  lemma Join<T>(a: seq<T>, f: seq<T>, g: seq<T>, t: seq<T>)
    ensures a + f + (g + t) == a + (f + g) + t
  {}

  lemma SplitFlat(es: seq<Entry>, c: nat, left: seq<Entry>, right: seq<Entry>, e: Entry, e': Entry)
    requires c < |es| && e.child == Node(right) && e'.child == Node(left)
    ensures FlatAll(es[c := e][..c]) + Flat(e'.child) + FlatAll(es[c := e][c..])
         == FlatAll(es[..c]) + (FlatAll(left) + FlatAll(right)) + FlatAll(es[c + 1..])
  {
    var es1 := es[c := e];
    assert es1[..c] == es[..c] && es1[c..] == [e] + es[c + 1..];
    FlatAppend([e], es[c + 1..]);
    FlatOne(e);
    Join(FlatAll(es[..c]), FlatAll(left), FlatAll(right), FlatAll(es[c + 1..]));
  }

  lemma AboveDelivers(es: seq<Entry>, h: nat, c: nat, r: Inserted, kidFlat: seq<Block>)
    requires OkAll(es, h + 1) && c < |es| <= BT_MAX
    requires Ok(es[c].child, h + 1) && Delivers(es[c].child.es, h, kidFlat, r)
    ensures Delivers(es, h + 1, FlatAll(es[..c]) + kidFlat + FlatAll(es[c + 1..]), Above(es, c, r))
  {
    match r
    case Fit(kid, up) => InsertFits(es, h, c, kid, up, kidFlat);
    case Split(left, right, up) => InsertSplits(es, h, c, left, right, up, kidFlat);
  }

  /** What insertion does to the list below the child it descends into. */
  lemma InnerFlat(es: seq<Entry>, h: nat, b: Block)
    requires 0 < |es| && OkAll(es, h + 1) && SortedBlocks(FlatAll(es))
    requires var kid := es[Child(es, b.size)].child; kid.Node?
    ensures var c := Child(es, b.size);
            InsertFlat(FlatAll(es), b) ==
            FlatAll(es[..c]) + InsertFlat(FlatAll(es[c].child.es), b) + FlatAll(es[c + 1..])
  {
    InsertAround(es, h + 1, b);
    var c := Child(es, b.size);
    assert Flat(es[c].child) == FlatAll(es[c].child.es);
  }

  lemma InnerIs(es: seq<Entry>, h: nat, b: Block)
    requires 0 < |es| <= BT_MAX && OkAll(es, h + 1)
    requires var kid := es[Child(es, b.size)].child; Ok(kid, h + 1)
    ensures var c := Child(es, b.size);
            InsertAt(es, h + 1, b) == Above(es, c, InsertAt(es[c].child.es, h, b))
  {
  }

  lemma InsertInner(es: seq<Entry>, h: nat, b: Block, c: nat, r: Inserted)
    requires 0 < |es| <= BT_MAX && OkAll(es, h + 1) && SortedBlocks(FlatAll(es)) && c == Child(es, b.size)
    requires Ok(es[c].child, h + 1) && Delivers(es[c].child.es, h, InsertFlat(FlatAll(es[c].child.es), b), r)
    ensures Delivers(es, h + 1, InsertFlat(FlatAll(es), b), Above(es, c, r))
  {
    InnerFlat(es, h, b);
    AboveDelivers(es, h, c, r, InsertFlat(FlatAll(es[c].child.es), b));
  }

  lemma KidReady(es: seq<Entry>, h: nat, b: Block)
    requires 0 < |es| <= BT_MAX && OkAll(es, h + 1) && SortedBlocks(FlatAll(es))
    ensures var kid := es[Child(es, b.size)].child;
            Ok(kid, h + 1) && kid.es != [] && |kid.es| <= BT_MAX && OkAll(kid.es, h) && SortedBlocks(FlatAll(kid.es))
  {
    var c := Child(es, b.size);
    assert OkEntry(es[c], h + 1) && Ok(es[c].child, h + 1);
    InsertAround(es, h + 1, b);
    assert Flat(es[c].child) == FlatAll(es[c].child.es);
  }

  /** Whatever insertion returns is what it must deliver. */
  ghost predicate InsertsWell(es: seq<Entry>, h: nat, b: Block)
    requires |es| <= BT_MAX && OkAll(es, h) && (h > 0 ==> es != [])
  {
    forall r :: r == InsertAt(es, h, b) ==> Delivers(es, h, InsertFlat(FlatAll(es), b), r)
  }

  lemma LeafResult(es: seq<Entry>, b: Block)
    requires |es| <= BT_MAX && OkAll(es, 0) && SortedBlocks(FlatAll(es))
    ensures InsertsWell(es, 0, b)
  {
    InsertLeaf(es, b);
  }

  /** A node of height `g` above children of height `h`. */
  lemma InnerResult(es: seq<Entry>, g: nat, h: nat, b: Block, c: nat)
    requires 0 < |es| <= BT_MAX && g == h + 1 && OkAll(es, g) && SortedBlocks(FlatAll(es)) && c == Child(es, b.size)
    requires Ok(es[c].child, g) && InsertsWell(es[c].child.es, h, b)
    ensures InsertsWell(es, g, b)
  {
    InsertInner(es, h, b, c, InsertAt(es[c].child.es, h, b));
    InnerIs(es, h, b);
  }

  lemma {:induction false} InsertResult(es: seq<Entry>, h: nat, b: Block)
    requires |es| <= BT_MAX && OkAll(es, h) && (h > 0 ==> es != []) && SortedBlocks(FlatAll(es))
    ensures InsertsWell(es, h, b)
    decreases h
  {
    if h == 0 {
      LeafResult(es, b);
    } else {
      var c := Child(es, b.size);
      KidReady(es, h - 1, b);
      InsertResult(es[c].child.es, h - 1, b);
      InnerResult(es, h, h - 1, b, c);
    }
  }

  /** Insertion below any well-formed node refines insertion into a sorted list. */
  lemma InsertDelivers(es: seq<Entry>, h: nat, b: Block)
    requires |es| <= BT_MAX && OkAll(es, h) && (h > 0 ==> es != []) && SortedBlocks(FlatAll(es))
    ensures Delivers(es, h, InsertFlat(FlatAll(es), b), InsertAt(es, h, b))
  {
    InsertResult(es, h, b);
  }
}
