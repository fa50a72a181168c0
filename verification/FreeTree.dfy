/** The tree of free blocks with its spare nodes: `btree_insert`, `btree_remove`, `btree_node_del`
    and `btree_cleanup` over the fields of `atls` (others/tmi/src/ll_alloc.c). */
module FreeTree {
  import opened Options
  import opened BTree
  import opened BTreeInsert
  import opened BTreeDelete

  const QS_MAX: nat := 1008     // NUM_QS * 16 - SEPSIZE
  const NODE_SIZE: nat := 240   // sizeof(btree)

  /** Spare nodes taken by an insertion below a node: one for every node that splits. */
  function Taken(es: seq<Entry>, h: nat, b: Block): nat
    requires |es| <= BT_MAX && OkAll(es, h) && (h > 0 ==> es != [])
    decreases h
  {
    (if InsertAt(es, h, b).Split? then 1 else 0)
    + if h == 0 then 0
      else
        var c := Child(es, b.size);
        assert OkEntry(es[c], h) && Ok(es[c].child, h);
        Taken(es[c].child.es, h - 1, b)
  }

  /** At most one node per internal level. */
  lemma {:induction false} TakenBound(es: seq<Entry>, h: nat, b: Block)
    requires |es| <= BT_MAX && OkAll(es, h) && (h > 0 ==> es != [])
    ensures Taken(es, h, b) <= h + 1
    decreases h
  {
    if h > 0 {
      var c := Child(es, b.size);
      assert OkEntry(es[c], h) && Ok(es[c].child, h);
      TakenBound(es[c].child.es, h - 1, b);
    }
  }

  lemma RootLarge(root: seq<Entry>, h: nat)
    requires OkAll(root, h) && root != []
    ensures |FlatAll(root)| >= Pow4(h)
  {
    FlatAround(root, 0);
    assert OkEntry(root[0], h);
    FlatLarge(root[0].child, h);
  }

  /** The new root after a split of the old one. */
  function GrownRoot(left: seq<Entry>, right: seq<Entry>): seq<Entry>
    requires left != [] && right != []
  {
    [Entry(left[|left| - 1].key, Node(left)), Entry(right[|right| - 1].key, Node(right))]
  }

  lemma WithoutSorted(s: seq<Block>, i: nat)
    requires SortedBlocks(s) && i < |s|
    ensures SortedBlocks(Without(s, i))
  {
  }

  lemma WithoutContents(s: seq<Block>, i: nat)
    requires i < |s|
    ensures multiset(Without(s, i)) + multiset{s[i]} == multiset(s)
  {
    assert s == s[..i] + [s[i]] + s[i + 1..];
  }

  predicate AllLarge(s: seq<Block>) { forall x :: x in s ==> x.size > QS_MAX }

  lemma {:induction false} InsertLarge(s: seq<Block>, b: Block)
    requires AllLarge(s) && b.size > QS_MAX
    ensures AllLarge(InsertFlat(s, b))
  {
    if s != [] && s[0].size < b.size { InsertLarge(s[1..], b); }
  }

  /** Shape of a root whose children have height `h`. */
  ghost predicate RootOk(root: seq<Entry>, h: nat) {
    && |root| <= BT_MAX && OkAll(root, h) && (h > 0 ==> root != [])
    && SortedBlocks(FlatAll(root)) && AllLarge(FlatAll(root))
  }

  /** A root left with a single small child is replaced by that child. */
  predicate Collapses(es: seq<Entry>, h: nat) {
    h > 0 && |es| == 1 && es[0].child.Node? && |es[0].child.es| <= 3
  }

  /** What removing the block at `path` from the list leaves of the root. */
  ghost predicate RootAfter(root: seq<Entry>, h: nat, path: seq<nat>, es: seq<Entry>)
    requires IsPath(root, h, path)
  {
    && Index(root, h, path) < |FlatAll(root)|
    && var flat := Without(FlatAll(root), Index(root, h, path));
       if Collapses(es, h) then RootOk(es[0].child.es, h - 1) && FlatAll(es[0].child.es) == flat
       else RootOk(es, h) && FlatAll(es) == flat
  }

  lemma DeleteLoneRoot(root: seq<Entry>, h: nat, path: seq<nat>)
    requires RootOk(root, h) && IsPath(root, h, path) && h > 0 && |root| == 1
    ensures RootAfter(root, h, path, DeleteAt(root, h, path).es)
  {
    IndexAt(root, h, path);
    WithoutSorted(FlatAll(root), Index(root, h, path));
    var es := DeleteAt(root, h, path).es;
    DeleteLone(root, h - 1, path);
    assert es == [es[0]];
    FlatOne(es[0]);
    if |es[0].child.es| > 3 { LooseOk(es[0], h - 1); }
  }

  lemma DeleteWideRoot(root: seq<Entry>, h: nat, path: seq<nat>)
    requires RootOk(root, h) && IsPath(root, h, path) && (h > 0 ==> |root| >= 2)
    ensures RootAfter(root, h, path, DeleteAt(root, h, path).es)
  {
    IndexAt(root, h, path);
    WithoutSorted(FlatAll(root), Index(root, h, path));
    var es := DeleteAt(root, h, path).es;
    DeleteDrops(root, h, path);
    if h > 0 && |es| == 1 { OkLoose(es[0], h - 1); }
  }

  lemma DeleteRoot(root: seq<Entry>, h: nat, path: seq<nat>)
    requires RootOk(root, h) && IsPath(root, h, path)
    ensures RootAfter(root, h, path, DeleteAt(root, h, path).es)
  {
    if h > 0 && |root| == 1 { DeleteLoneRoot(root, h, path); } else { DeleteWideRoot(root, h, path); }
  }

  class FreeTree {
    var root: seq<Entry>
    var hgt: nat
    var cnt: nat

    /** Children sorted, keys equal to subtree maxima, leaves at one depth, 4 to 16 children in every
        inner node but the root; `hgt` is the number of internal levels plus one. */
    ghost predicate Shape()
      reads this
    {
      hgt >= 2 && RootOk(root, hgt - 2)
    }

    /** Between calls there are enough spare nodes for any insertion, except in a fresh tree. */
    ghost predicate Valid()
      reads this
    {
      Shape() && (cnt >= hgt || root == [])
    }

    ghost function Blocks(): seq<Block>
      reads this
    {
      FlatAll(root)
    }

    constructor ()
      ensures Valid() && Blocks() == [] && hgt == 2 && cnt == 0
    {
      root, hgt, cnt := [], 2, 0;
    }

    /** `btree_insert`. `slabs` is how many spare nodes the slab allocator can still provide; when it
        cannot provide enough, the smallest blocks are carved up, and returned as `used`. */
    method Insert(b: Block, slabs: nat) returns (used: seq<Block>)
      requires Valid() && b.size > QS_MAX
      modifies this
      ensures Valid() && cnt >= hgt
      ensures |used| <= |InsertFlat(old(Blocks()), b)|
      ensures used == InsertFlat(old(Blocks()), b)[..|used|]
      ensures Blocks() == InsertFlat(old(Blocks()), b)[|used|..]
      ensures slabs > old(hgt) ==> used == []
    {
      InsertNode(b);
      used := Cleanup(slabs);
    }

    /** `btree_node_insert` from the root: the spare list never runs dry. */
    method InsertNode(b: Block)
      requires Valid() && b.size > QS_MAX
      modifies this
      ensures Shape() && Blocks() == InsertFlat(old(Blocks()), b)
      ensures old(hgt) <= hgt <= old(hgt) + 1
    {
      var h := hgt - 2;
      InsertDelivers(root, h, b);
      TakenBound(root, h, b);
      InsertFlatSorted(FlatAll(root), b);
      InsertLarge(FlatAll(root), b);
      var taken := Taken(root, h, b);
      match InsertAt(root, h, b)
      case Fit(es, _) =>
        assert taken <= cnt by { if root == [] { assert taken == 0; } else { assert taken <= h + 1; } }
        cnt := cnt - taken;
        root := es;
      case Split(left, right, _) =>
        assert root != [] && taken + 1 <= hgt;
        cnt := cnt - taken - 1;
        hgt := hgt + 1;
        TwoKids(left, right, h);
        root := GrownRoot(left, right);
    }

    /** Spare nodes from the slab allocator, while it has any. */
    method Refill(slabs: nat)
      modifies this`cnt
      ensures cnt >= old(cnt) && (slabs >= hgt ==> cnt >= hgt)
    {
      var s := slabs;
      while hgt > cnt && s > 0
        invariant cnt + s >= slabs && cnt >= old(cnt)
        decreases s
      {
        cnt := cnt + 1;
        s := s - 1;
      }
    }

    /** `btree_cleanup`: it always ends with enough spare nodes, and never finds the tree empty. */
    method Cleanup(slabs: nat) returns (used: seq<Block>)
      requires Shape() && root != []
      modifies this
      ensures Shape() && cnt >= hgt
      ensures |used| <= |old(Blocks())| && used == old(Blocks())[..|used|] && Blocks() == old(Blocks())[|used|..]
      ensures slabs >= old(hgt) ==> used == []
    {
      Refill(slabs);
      RootLarge(root, hgt - 2);
      used := CarveUp();
    }

    /** The loop that carves up the smallest blocks until there are enough spare nodes. */
    method CarveUp() returns (used: seq<Block>)
      requires Shape() && 4 * |Blocks()| >= hgt - cnt
      modifies this
      ensures Shape() && cnt >= hgt
      ensures |used| <= |old(Blocks())| && used == old(Blocks())[..|used|] && Blocks() == old(Blocks())[|used|..]
      ensures old(cnt >= hgt) ==> used == []
    {
      used := [];
      ghost var all := Blocks();
      while hgt > cnt
        invariant Shape() && 4 * |Blocks()| >= hgt - cnt
        invariant |used| <= |all| && used == all[..|used|] && Blocks() == all[|used|..]
        invariant old(cnt >= hgt) ==> used == [] && cnt >= hgt
        decreases hgt - cnt
      {
        var b := CarveOne();
        used := used + [b];
      }
    }

    /** The smallest block becomes spare nodes: as many as are needed, and at least four of them
        fit since only blocks above `QS_MAX` are in the tree. */
    method CarveOne() returns (b: Block)
      requires Shape() && hgt > cnt && Blocks() != []
      modifies this
      ensures Shape() && hgt <= old(hgt) && old(cnt) < cnt
      ensures hgt > cnt ==> hgt - cnt <= old(hgt - cnt) - 4
      ensures b == old(Blocks())[0] && Blocks() == old(Blocks())[1..]
    {
      assert Blocks()[0] in Blocks();
      var r := Remove(0);
      b := r.value;
      assert b in old(Blocks());
      var num := b.size / NODE_SIZE;
      var need := hgt - cnt;
      if num > need { num := need; }
      if num < 1 { num := 1; }
      cnt := cnt + num;
    }

    /** `btree_remove`: the smallest block that is large enough, if there is one. */
    method Remove(size: nat) returns (r: Option<Block>)
      requires Shape()
      modifies this
      ensures Shape() && hgt <= old(hgt) && (old(cnt < hgt) ==> cnt == old(cnt))
      ensures old(Valid()) ==> Valid()
      ensures r.None? ==> Blocks() == old(Blocks()) && forall x :: x in old(Blocks()) ==> x.size < size
      ensures r.Some? ==> && FirstFit(old(Blocks()), size) < |old(Blocks())|
                          && r.value == old(Blocks())[FirstFit(old(Blocks()), size)]
                          && Blocks() == Without(old(Blocks()), FirstFit(old(Blocks()), size))
                          && r.value.size >= size
                          && (forall x :: x in old(Blocks()) && x.size >= size ==> r.value.size <= x.size)
    {
      var h := hgt - 2;
      SearchFinds(root, h, size);
      FirstFitBest(FlatAll(root), size);
      var p := Search(root, h, size);
      if p.None? { return None; }
      IndexAt(root, h, p.value);
      r := Some(At(root, h, p.value));
      DeleteNode(p.value);
    }

    /** `btree_node_del` of the leaf at `path`, with the collapse of a root that has a single small child. */
    method DeleteNode(path: seq<nat>)
      requires Shape() && IsPath(root, hgt - 2, path)
      modifies this
      ensures Shape() && hgt <= old(hgt) && (old(cnt < hgt) ==> cnt == old(cnt))
      ensures old(Valid()) ==> Valid()
      ensures old(Index(root, hgt - 2, path)) < |old(Blocks())|
      ensures Blocks() == Without(old(Blocks()), old(Index(root, hgt - 2, path)))
    {
      var h := hgt - 2;
      DeleteRoot(root, h, path);
      var es := DeleteAt(root, h, path).es;
      if Collapses(es, h) {
        root := es[0].child.es;
        hgt := hgt - 1;
        if hgt < cnt { cnt := cnt - 1; }
      } else {
        root := es;
      }
    }
  }

  datatype Op = Put(b: Block, slabs: nat) | Get(size: nat)

  function PutBlock(op: Op): multiset<Block> { if op.Put? then multiset{op.b} else multiset{} }

  function PutBlocks(ops: seq<Op>): multiset<Block> {
    if ops == [] then multiset{} else PutBlocks(ops[..|ops| - 1]) + PutBlock(ops[|ops| - 1])
  }

  lemma PutConserves(before: seq<Block>, after: seq<Block>, used: seq<Block>, b: Block)
    requires used + after == InsertFlat(before, b)
    ensures multiset(after) + multiset(used) == multiset(before) + multiset{b}
  {
    InsertFlatContents(before, b);
    assert multiset(used + after) == multiset(used) + multiset(after);
  }

  lemma Chain<T>(a: multiset<T>, g: multiset<T>, b: multiset<T>, p: multiset<T>, gone: multiset<T>, c: multiset<T>,
                 ps: multiset<T>)
    requires a + g == b + p && b + gone == c + ps
    ensures a + (gone + g) == c + (ps + p)
  {
    calc { a + (gone + g); (a + g) + gone; (b + p) + gone; (b + gone) + p; (c + ps) + p; c + (ps + p); }
  }

  method Do(t: FreeTree, op: Op) returns (gone: multiset<Block>)
    requires t.Valid() && (op.Put? ==> op.b.size > QS_MAX)
    modifies t
    ensures t.Valid()
    ensures multiset(t.Blocks()) + gone == old(multiset(t.Blocks())) + PutBlock(op)
  {
    ghost var before := t.Blocks();
    match op
    case Put(b, slabs) =>
      var used := t.Insert(b, slabs);
      gone := multiset(used);
      PutConserves(before, t.Blocks(), used, b);
    case Get(size) =>
      var r := t.Remove(size);
      gone := multiset{};
      if r.Some? {
        WithoutContents(before, FirstFit(before, size));
        gone := multiset{r.value};
      }
  }

  /** Over any run of insertions and removals no block is lost, duplicated or invented. */
  method Run(t: FreeTree, ops: seq<Op>) returns (gone: multiset<Block>)
    requires t.Valid() && forall op :: op in ops && op.Put? ==> op.b.size > QS_MAX
    modifies t
    ensures t.Valid()
    ensures multiset(t.Blocks()) + gone == old(multiset(t.Blocks())) + PutBlocks(ops)
  {
    gone := multiset{};
    for i := 0 to |ops|
      invariant t.Valid()
      invariant multiset(t.Blocks()) + gone == old(multiset(t.Blocks())) + PutBlocks(ops[..i])
    {
      assert ops[..i + 1][..i] == ops[..i];
      assert ops[i] in ops;
      ghost var before := multiset(t.Blocks());
      var g := Do(t, ops[i]);
      Chain(multiset(t.Blocks()), g, before, PutBlock(ops[i]), gone, old(multiset(t.Blocks())), PutBlocks(ops[..i]));
      gone := gone + g;
    }
    assert ops[..|ops|] == ops;
  }
}
