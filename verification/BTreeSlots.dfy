/** Splitting and merging nodes of the tree of free blocks, slot by slot: `btree_node_insert_aux` and
    `btree_merge_aux` (others/tmi/src/ll_alloc.c). While entries move over, one link of the receiving node is open. */
module BTreeSlots {
  import opened Options
  import opened BTree
  import opened BTreeInsert
  import opened BTreeDelete
  import opened BTreeNode

  // ---- a list with one open link ------------------------------------------------------------------------------

  /** All links are in place except the one behind position `g`. */
  ghost predicate Gapped(next: seq<nat>, prev: seq<nat>, mask: set<nat>, order: seq<nat>, g: nat) {
    && |next| == |prev| == BT_MAX + 1 && SlotsOk(order) && g <= |order|
    && (forall s :: s in mask <==> 1 <= s <= BT_MAX && s !in order)
    && (forall i {:trigger Linked(next, prev, order, i)} :: 0 <= i <= |order| && i != g ==>
        Linked(next, prev, order, i))
  }

  lemma RingNextApart(order: seq<nat>, i: nat, j: nat)
    requires SlotsOk(order) && i <= |order| && j <= |order| && i != j
    ensures Ring(order, i + 1) != Ring(order, j + 1)
  {
    if i < |order| && j < |order| { assert order[i] != order[j]; }
  }

  lemma GapLinked(next: seq<nat>, prev: seq<nat>, mask: set<nat>, order: seq<nat>, g: nat, s: nat, k: nat)
    requires Gapped(next, prev, mask, order, g) && s in mask && SlotsOk(WithSlot(order, g, s))
    requires k <= |order| + 1 && k != g + 1
    ensures Linked(next[Ring(order, g) := s], prev[s := Ring(order, g)], WithSlot(order, g, s), k)
  {
    RingWithSlot(order, g, s, k);
    RingWithSlot(order, g, s, k + 1);
    if k != g {
      var k0 := if k < g then k else k - 1;
      assert Linked(next, prev, order, k0);
      RingApart(order, k0, g);
      assert Ring(order, k0 + 1) != s;
    }
  }

  /** A new slot at the gap moves the gap on. */
  lemma GapAppend(next: seq<nat>, prev: seq<nat>, mask: set<nat>, order: seq<nat>, g: nat, s: nat)
    requires Gapped(next, prev, mask, order, g) && s in mask
    ensures Gapped(next[Ring(order, g) := s], prev[s := Ring(order, g)], mask - {s}, WithSlot(order, g, s), g + 1)
  {
    WithSlotOk(order, g, s);
    var next', prev', order' := next[Ring(order, g) := s], prev[s := Ring(order, g)], WithSlot(order, g, s);
    forall k | 0 <= k <= |order| + 1 && k != g + 1 ensures Linked(next', prev', order', k) {
      GapLinked(next, prev, mask, order, g, s, k);
    }
  }

  lemma CloseLinked(next: seq<nat>, prev: seq<nat>, mask: set<nat>, order: seq<nat>, g: nat, k: nat)
    requires Gapped(next, prev, mask, order, g) && k <= |order|
    ensures var l, r := Ring(order, g), Ring(order, g + 1); Linked(next[l := r], prev[r := l], order, k)
  {
    if k != g {
      assert Linked(next, prev, order, k);
      RingApart(order, k, g);
      RingNextApart(order, k, g);
    }
  }

  lemma GapClose(next: seq<nat>, prev: seq<nat>, mask: set<nat>, order: seq<nat>, g: nat)
    requires Gapped(next, prev, mask, order, g)
    ensures var l, r := Ring(order, g), Ring(order, g + 1); Threaded(next[l := r], prev[r := l], mask, order)
  {
    var l, r := Ring(order, g), Ring(order, g + 1);
    var next', prev' := next[l := r], prev[r := l];
    forall k | 0 <= k <= |order| ensures Linked(next', prev', order, k) {
      CloseLinked(next, prev, mask, order, g, k);
    }
  }

  // ---- cutting a list --------------------------------------------------------------------------------------------

  lemma SliceOk(order: seq<nat>, a: nat, b: nat)
    requires SlotsOk(order) && a <= b <= |order|
    ensures SlotsOk(order[a..b])
  {
    var o := order[a..b];
    forall i, j | 0 <= i < j < |o| ensures o[i] != o[j] { assert order[a + i] != order[a + j]; }
  }

  lemma SplitMembers(order: seq<nat>, n: nat)
    requires SlotsOk(order) && n <= |order|
    ensures forall s :: s in order <==> s in order[..n] || s in order[n..]
    ensures forall s :: !(s in order[..n] && s in order[n..])
  {
    assert order == order[..n] + order[n..];
  }

  /** The mask after the slots `gone` have been freed. */
  ghost predicate Released(mask: set<nat>, gone: seq<nat>, mask': set<nat>) {
    forall s :: s in mask' <==> s in mask || s in gone
  }

  lemma RingDrop(order: seq<nat>, n: nat, k: nat)
    requires n <= |order| && k <= |order| - n + 1
    ensures Ring(order[n..], k) == if k == 0 then 0 else Ring(order, n + k)
  {}

  lemma DropLinked(next: seq<nat>, prev: seq<nat>, mask: set<nat>, order: seq<nat>, n: nat, k: nat)
    requires Threaded(next, prev, mask, order) && n <= |order| && k <= |order| - n && SlotsOk(order[n..])
    ensures var r := Ring(order, n + 1); Linked(next[0 := r], prev[r := 0], order[n..], k)
  {
    RingDrop(order, n, k);
    RingDrop(order, n, k + 1);
    if k > 0 {
      assert Linked(next, prev, order, n + k);
      RingApart(order, n + k, 0);
      RingNextApart(order, n + k, n);
    }
  }

  /** The first `n` slots are left behind by pointing slot 0 past them. */
  lemma DropThreaded(next: seq<nat>, prev: seq<nat>, mask: set<nat>, order: seq<nat>, n: nat, mask': set<nat>)
    requires Threaded(next, prev, mask, order) && n <= |order| && Released(mask, order[..n], mask')
    ensures var r := Ring(order, n + 1); Threaded(next[0 := r], prev[r := 0], mask', order[n..])
  {
    SliceOk(order, n, |order|);
    assert order[n..|order|] == order[n..];
    SplitMembers(order, n);
    var r := Ring(order, n + 1);
    var next', prev', rest := next[0 := r], prev[r := 0], order[n..];
    forall k | 0 <= k <= |rest| ensures Linked(next', prev', rest, k) {
      DropLinked(next, prev, mask, order, n, k);
    }
    forall s: nat ensures s in mask' <==> 1 <= s <= BT_MAX && s !in order[n..] { ReleasedBounds(order, n, s); }
  }

  lemma ReleasedBounds(order: seq<nat>, n: nat, s: nat)
    requires SlotsOk(order) && n <= |order|
    ensures s in order[..n] || s in order[n..] ==> 1 <= s <= BT_MAX
  {
    if s in order[..n] { var i :| 0 <= i < n && order[..n][i] == s; assert order[i] == s; }
    else if s in order[n..] { var i :| 0 <= i < |order| - n && order[n..][i] == s; assert order[n + i] == s; }
  }

  lemma RingTake(order: seq<nat>, m: nat, k: nat)
    requires m <= |order| && k <= m + 1
    ensures Ring(order[..m], k) == if k <= m then Ring(order, k) else 0
  {}

  lemma TakeLinked(next: seq<nat>, prev: seq<nat>, mask: set<nat>, order: seq<nat>, m: nat, k: nat)
    requires Threaded(next, prev, mask, order) && k <= m <= |order| && SlotsOk(order[..m])
    ensures var l := Ring(order, m); Linked(next[l := 0], prev[0 := l], order[..m], k)
  {
    RingTake(order, m, k);
    RingTake(order, m, k + 1);
    if k < m {
      assert Linked(next, prev, order, k);
      RingApart(order, k, m);
      RingNextApart(order, k, |order|);
    }
  }

  /** The slots from `m` on are left behind by closing the list in front of them. */
  lemma TakeThreaded(next: seq<nat>, prev: seq<nat>, mask: set<nat>, order: seq<nat>, m: nat, mask': set<nat>)
    requires Threaded(next, prev, mask, order) && m <= |order| && Released(mask, order[m..], mask')
    ensures var l := Ring(order, m); Threaded(next[l := 0], prev[0 := l], mask', order[..m])
  {
    SliceOk(order, 0, m);
    assert order[0..m] == order[..m];
    SplitMembers(order, m);
    var l := Ring(order, m);
    var next', prev', front := next[l := 0], prev[0 := l], order[..m];
    forall k | 0 <= k <= m ensures Linked(next', prev', front, k) {
      TakeLinked(next, prev, mask, order, m, k);
    }
    forall s: nat ensures s in mask' <==> 1 <= s <= BT_MAX && s !in order[..m] { ReleasedBounds(order, m, s); }
  }

  // ---- steps on one node --------------------------------------------------------------------------------------------

  /** The arrays of a node have their sizes. */
  ghost predicate Framed(b: Node) {
    b.next != b.prev && b.entries.Length == BT_MAX + 1 && b.next.Length == BT_MAX + 1 && b.prev.Length == BT_MAX + 1
  }

  ghost predicate GapAt(b: Node, g: nat)
    reads b, b.next, b.prev
  {
    Framed(b) && Gapped(b.next[..], b.prev[..], b.mask, b.order, g)
  }

  /** The entries in list order. */
  ghost function Kids(b: Node): seq<Entry>
    requires Framed(b) && SlotsOk(b.order)
    reads b`order, b.entries
  {
    Listed(b.entries[..], b.order)
  }

  lemma GapFree(order: seq<nat>, mask: set<nat>)
    requires SlotsOk(order) && (forall s :: s in mask <==> 1 <= s <= BT_MAX && s !in order) && |order| < BT_MAX
    ensures mask != {}
  {
    FullIff(order, mask);
  }

  /** One round of the copying loops: a slot is allocated, filled, and linked behind `ip`. */
  method Append(b: Node, ip: nat, e: Entry, ghost g: nat) returns (i: nat)
    requires GapAt(b, g) && ip == Ring(b.order, g) && |b.order| < BT_MAX
    modifies b, b.next, b.prev, b.entries
    ensures GapAt(b, g + 1) && b.order == WithSlot(old(b.order), g, i) && i == Ring(b.order, g + 1)
    ensures Kids(b) == old(Kids(b))[..g] + [e] + old(Kids(b))[g..]
  {
    GapFree(b.order, b.mask);
    i :| i in b.mask;
    GapAppend(b.next[..], b.prev[..], b.mask, b.order, g, i);
    ListedInsert(b.entries[..], b.order, g, i, e);
    ghost var n0, p0, e0 := b.next[..], b.prev[..], b.entries[..];
    b.mask := b.mask - {i};
    b.entries[i] := e;
    b.next[ip] := i;
    b.prev[i] := ip;
    assert b.next[..] == n0[ip := i] && b.prev[..] == p0[i := ip] && b.entries[..] == e0[i := e];
    b.order := WithSlot(b.order, g, i);
  }

  /** The last two writes: the open link is closed. */
  method Close(b: Node, ip: nat, k: nat, ghost g: nat)
    requires GapAt(b, g) && ip == Ring(b.order, g) && k == Ring(b.order, g + 1)
    modifies b.next, b.prev
    ensures b.Valid() && b.Children() == old(Kids(b))
  {
    GapClose(b.next[..], b.prev[..], b.mask, b.order, g);
    ghost var n0, p0 := b.next[..], b.prev[..];
    b.next[ip] := k;
    b.prev[k] := ip;
    assert b.next[..] == n0[ip := k] && b.prev[..] == p0[k := ip];
  }

  /** `btree_count`: the number of used slots. */
  method Count(b: Node) returns (n: nat)
    requires b.Valid()
    ensures n == |b.Children()|
  {
    MaskCount(b.order, b.mask);
    n := BT_MAX - |b.mask|;
  }

  lemma MaskCount(order: seq<nat>, mask: set<nat>)
    requires SlotsOk(order) && forall s :: s in mask <==> 1 <= s <= BT_MAX && s !in order
    ensures |mask| == BT_MAX - |order|
  {
    UsedCount(order);
    var all := Upto(BT_MAX);
    forall x ensures x in Used(order) <==> x in order { UsedHas(order, x); }
    assert mask == all - Used(order);
    assert Used(order) <= all;
  }

  /** Removal from an inner node with enough children: the test along the links decides as counting would. */
  method DeleteTest(b: Node, loc: nat, ghost i: nat) returns (few: bool)
    requires b.Valid() && i < |b.order| && loc == b.order[i] && |b.order| >= 4
    modifies b, b.next, b.prev
    ensures b.Valid() && b.Children() == Without(old(b.Children()), i)
    ensures few <==> !(|b.Children()| > 3)
  {
    b.Delete(loc, i);
    few := b.FewChildren();
  }

  // ---- moving entries between neighbours --------------------------------------------------------------------------

  /** Two nodes that share no memory. */
  ghost predicate Neighbours(bl: Node, br: Node) {
    && bl != br && bl.entries != br.entries
    && bl.next != br.next && bl.next != br.prev && bl.prev != br.next && bl.prev != br.prev
  }

  /** Position `d` of the walk along the links of a list. */
  lemma WalkOn(b: Node, d: nat)
    requires b.Valid() && d <= |b.order|
    ensures b.next[Ring(b.order, d)] == Ring(b.order, d + 1) && b.prev[Ring(b.order, d + 1)] == Ring(b.order, d)
  {
    assert Linked(b.next[..], b.prev[..], b.order, d);
  }

  lemma OpenEnd(b: Node, g: nat)
    requires b.Valid() && g <= |b.order|
    ensures GapAt(b, g) && Kids(b) == b.Children()
  {
  }

  /** One round of the loops that move entries: entry `d` of `from` goes to the gap of `to`. */
  method Hand(from: Node, to: Node, k: nat, ip: nat, ghost d: nat, ghost g: nat) returns (next: nat, i: nat)
    requires Framed(from) && SlotsOk(from.order) && Neighbours(from, to) && d < |from.order| && k == from.order[d]
    requires GapAt(to, g) && ip == Ring(to.order, g) && |to.order| < BT_MAX
    modifies to, to.next, to.prev, to.entries, from`mask
    ensures next == from.next[k] && from.mask == old(from.mask) + {k}
    ensures GapAt(to, g + 1) && |to.order| == |old(to.order)| + 1 && i == Ring(to.order, g + 1)
    ensures Ring(to.order, g + 2) == old(Ring(to.order, g + 1))
    ensures Kids(to) == old(Kids(to))[..g] + [Kids(from)[d]] + old(Kids(to))[g..]
  {
    next := from.next[k];
    RingWithSlot(to.order, g, 0, g + 2);
    i := Append(to, ip, from.entries[k], g);
    from.mask := from.mask + {k};
  }

  lemma ReleasedNext(mask: set<nat>, order: seq<nat>, a: nat, d: nat, mask': set<nat>)
    requires a <= d < |order| && Released(mask, order[a..d], mask')
    ensures Released(mask, order[a..d + 1], mask' + {order[d]})
  {
    assert order[a..d + 1] == order[a..d] + [order[d]];
  }

  /** The slots `a` to `d` of a list have been freed. */
  ghost predicate FreedTo(b: Node, order: seq<nat>, mask0: set<nat>, a: nat, d: nat)
    reads b`mask
  {
    a <= d <= |order| && Released(mask0, order[a..d], b.mask)
  }

  lemma RingInside(order: seq<nat>, d: nat, j: nat)
    requires SlotsOk(order) && d <= |order| && j == Ring(order, d + 1)
    ensures if j == 0 then d == |order| else d < |order| && j == order[d]
  {
  }

  // ---- from the right node to the end of the left one ---------------------------------------------------------------

  /** Apart from its mask, `b` is as it was. */
  ghost predicate Still(b: Node, order: seq<nat>, mask0: set<nat>, kids: seq<Entry>)
    reads b`order, b.next, b.prev, b.entries
  {
    Framed(b) && b.order == order && Threaded(b.next[..], b.prev[..], mask0, order) && Kids(b) == kids
  }

  lemma StillWalk(b: Node, order: seq<nat>, mask0: set<nat>, kids: seq<Entry>, d: nat)
    requires Still(b, order, mask0, kids) && d < |order|
    ensures b.next[order[d]] == Ring(order, d + 2) && b.entries[order[d]] == kids[d]
  {
    assert Linked(b.next[..], b.prev[..], order, d + 1);
  }

  /** The last writes to a node whose first `n` entries are gone. */
  method DropFront(b: Node, first: nat, ghost order: seq<nat>, ghost mask0: set<nat>, ghost kids: seq<Entry>,
                   ghost n: nat)
    requires Still(b, order, mask0, kids) && FreedTo(b, order, mask0, 0, n) && first == Ring(order, n + 1)
    modifies b`order, b.next, b.prev
    ensures b.Valid() && b.order == order[n..] && b.Children() == kids[n..]
  {
    assert order[0..n] == order[..n];
    DropThreaded(b.next[..], b.prev[..], mask0, order, n, b.mask);
    ghost var n0, p0 := b.next[..], b.prev[..];
    b.next[0] := first;
    b.prev[first] := 0;
    assert b.next[..] == n0[0 := first] && b.prev[..] == p0[first := 0];
    b.order := order[n..];
  }

  lemma AppendKids(left: seq<Entry>, right: seq<Entry>, d: nat, kids: seq<Entry>)
    requires d < |right| && kids == left + right[..d]
    ensures kids[..|kids|] + [right[d]] + kids[|kids|..] == left + right[..d + 1]
  {
    assert right[..d + 1] == right[..d] + [right[d]];
  }

  /** `b` has an open link at its end and the given entries. */
  ghost predicate Growing(b: Node, ip: nat, kids: seq<Entry>)
    reads b, b.next, b.prev, b.entries
  {
    GapAt(b, |b.order|) && ip == Ring(b.order, |b.order|) && Kids(b) == kids
  }

  /** One round: entry `d` of `br` goes to the end of `bl`. */
  method Shift(br: Node, bl: Node, k: nat, ip: nat, ghost d: nat, ghost order: seq<nat>, ghost mask0: set<nat>,
               ghost left: seq<Entry>, ghost right: seq<Entry>) returns (next: nat, i: nat)
    requires Neighbours(br, bl) && Still(br, order, mask0, right) && FreedTo(br, order, mask0, 0, d)
    requires d < |order| && k == order[d]
    requires Growing(bl, ip, left + right[..d]) && |left| + d < BT_MAX
    modifies bl, bl.next, bl.prev, bl.entries, br`mask
    ensures FreedTo(br, order, mask0, 0, d + 1) && next == Ring(order, d + 2)
    ensures Growing(bl, i, left + right[..d + 1])
  {
    StillWalk(br, order, mask0, right, d);
    AppendKids(left, right, d, Kids(bl));
    ReleasedNext(mask0, order, 0, d, br.mask);
    next, i := Hand(br, bl, k, ip, d, |bl.order|);
  }

  /** The first `n` entries of `br` move to the end of `bl`. */
  method MoveFront(bl: Node, br: Node, n: nat)
    requires bl.Valid() && br.Valid() && Neighbours(bl, br)
    requires 0 < n < |br.Children()| && |bl.Children()| + n <= BT_MAX
    modifies bl, bl.next, bl.prev, bl.entries, br, br.next, br.prev, br.entries
    ensures bl.Valid() && br.Valid()
    ensures bl.Children() == old(bl.Children()) + old(br.Children())[..n]
    ensures br.Children() == old(br.Children())[n..]
  {
    ghost var left, right, order, mask0 := bl.Children(), br.Children(), br.order, br.mask;
    WalkOn(bl, |bl.order|);
    WalkOn(br, 0);
    var ip, k, next: nat := bl.prev[0], br.next[0], 0;
    for d := 0 to n
      invariant Still(br, order, mask0, right) && FreedTo(br, order, mask0, 0, d)
      invariant k == Ring(order, d + 1) && (d > 0 ==> next == k)
      invariant Growing(bl, ip, left + right[..d])
    {
      next, ip := Shift(br, bl, k, ip, d, order, mask0, left, right);
      k := next;
    }
    Close(bl, ip, 0, |bl.order|);
    DropFront(br, next, order, mask0, right, n);
  }

  // ---- from the left node to the front of the right one -------------------------------------------------------------

  /** `b` holds the entries `front` before an open link, and `back` behind it; slot `first` is the first of those. */
  ghost predicate Filling(b: Node, ip: nat, first: nat, front: seq<Entry>, back: seq<Entry>)
    reads b, b.next, b.prev, b.entries
  {
    && GapAt(b, |front|) && ip == Ring(b.order, |front|) && first == Ring(b.order, |front| + 1)
    && Kids(b) == front + back
  }

  lemma FillKids(front: seq<Entry>, back: seq<Entry>, e: Entry)
    ensures var kids := front + back; kids[..|front|] + [e] + kids[|front|..] == (front + [e]) + back
  {
    assert (front + back)[..|front|] == front && (front + back)[|front|..] == back;
  }

  predicate LinkOn(next: seq<nat>, order: seq<nat>, d: nat)
    requires |next| == BT_MAX + 1 && SlotsOk(order) && d <= |order|
  {
    next[Ring(order, d)] == Ring(order, d + 1)
  }

  /** The list of `b` has been closed behind position `m`; its links from there on are still in place. `free` is
      the mask it will have when the slots behind have been freed. */
  ghost predicate Cut(b: Node, order: seq<nat>, free: set<nat>, kids: seq<Entry>, m: nat)
    reads b`order, b.next, b.prev, b.entries
  {
    && Framed(b) && b.order == order && SlotsOk(order) && m <= |order| && Kids(b) == kids
    && Threaded(b.next[..], b.prev[..], free, order[..m])
    && (forall d {:trigger LinkOn(b.next[..], order, d)} :: m < d <= |order| ==> LinkOn(b.next[..], order, d))
  }

  /** One round: entry `d` of `from` goes to the gap of `to`. */
  method Feed(from: Node, to: Node, k: nat, ip: nat, ghost d: nat, ghost first: nat, ghost order: seq<nat>,
              ghost free: set<nat>, ghost mask0: set<nat>, ghost kids: seq<Entry>, ghost m: nat, ghost back: seq<Entry>)
    returns (next: nat, i: nat)
    requires Cut(from, order, free, kids, m) && m <= d < |order| && k == order[d] && FreedTo(from, order, mask0, m, d)
    requires Neighbours(from, to) && Filling(to, ip, first, kids[m..d], back) && |order| - m + |back| <= BT_MAX
    modifies to, to.next, to.prev, to.entries, from`mask
    ensures next == Ring(order, d + 2) && FreedTo(from, order, mask0, m, d + 1)
    ensures Filling(to, i, first, kids[m..d + 1], back)
  {
    assert LinkOn(from.next[..], order, d + 1);
    ReleasedNext(mask0, order, m, d, from.mask);
    assert kids[m..d + 1] == kids[m..d] + [kids[d]];
    FillKids(kids[m..d], back, kids[d]);
    next, i := Hand(from, to, k, ip, d, d - m);
  }

  /** Walking back from the last slot. */
  method StepBack(b: Node, n: nat) returns (ip: nat)
    requires b.Valid() && n <= |b.order|
    ensures ip == Ring(b.order, |b.order| - n)
  {
    WalkOn(b, |b.order|);
    ip := b.prev[0];
    for d := 0 to n
      invariant ip == Ring(b.order, |b.order| - d)
    {
      WalkOn(b, |b.order| - d - 1);
      ip := b.prev[ip];
    }
  }

  /** The mask with the given slots freed as well. */
  ghost function Freeing(mask: set<nat>, gone: seq<nat>): (free: set<nat>)
    ensures Released(mask, gone, free)
  {
    mask + set s | s in gone
  }

  /** The list of `b` is closed behind position `m`, whose slot is `ip`; the rest begins at slot `j`. */
  method CutAt(b: Node, ip: nat, ghost m: nat) returns (j: nat)
    requires b.Valid() && m <= |b.order| && ip == Ring(b.order, m)
    modifies b.next, b.prev
    ensures Cut(b, b.order, Freeing(b.mask, b.order[m..]), old(b.Children()), m) && j == Ring(b.order, m + 1)
  {
    ghost var order, next0, prev0 := b.order, b.next[..], b.prev[..];
    TakeThreaded(next0, prev0, b.mask, order, m, Freeing(b.mask, order[m..]));
    WalkOn(b, m);
    j := b.next[ip];
    b.next[ip] := 0;
    b.prev[0] := ip;
    assert b.next[..] == next0[ip := 0] && b.prev[..] == prev0[0 := ip];
    ghost var next' := next0[ip := 0];
    forall d | m < d <= |order| ensures LinkOn(next', order, d) {
      assert Linked(next0, prev0, order, d);
      RingApart(order, d, m);
    }
  }

  lemma FillStart(b: Node)
    requires b.Valid()
    ensures Filling(b, 0, b.next[0], [], b.Children())
  {
    WalkOn(b, 0);
    OpenEnd(b, 0);
  }

  method FillEnd(b: Node, ip: nat, first: nat, ghost front: seq<Entry>, ghost back: seq<Entry>)
    requires Filling(b, ip, first, front, back)
    modifies b.next, b.prev
    ensures b.Valid() && b.Children() == front + back
  {
    Close(b, ip, first, |front|);
  }

  /** The entries behind the cut move over, one by one. */
  method MoveTail(bl: Node, br: Node, j0: nat, ghost first: nat, ghost order: seq<nat>, ghost free: set<nat>,
                  ghost kids: seq<Entry>, ghost m: nat, ghost right: seq<Entry>) returns (ip: nat)
    requires Neighbours(bl, br) && Cut(bl, order, free, kids, m) && j0 == Ring(order, m + 1)
    requires Filling(br, 0, first, kids[m..m], right) && |order| - m + |right| <= BT_MAX
    modifies br, br.next, br.prev, br.entries, bl`mask
    ensures FreedTo(bl, order, old(bl.mask), m, |order|) && Filling(br, ip, first, kids[m..|order|], right)
  {
    ghost var d, mask0 := m, bl.mask;
    var j: nat := j0;
    ip := 0;
    while j != 0
      invariant d <= |order| && j == Ring(order, d + 1) && FreedTo(bl, order, mask0, m, d)
      invariant Filling(br, ip, first, kids[m..d], right)
      decreases |order| - d
    {
      RingInside(order, d, j);
      j, ip := Feed(bl, br, j, ip, d, first, order, free, mask0, kids, m, right);
      d := d + 1;
    }
    RingInside(order, d, j);
  }

  method TakeOver(bl: Node, br: Node, j: nat, ghost order: seq<nat>, ghost free: set<nat>, ghost kids: seq<Entry>,
                  ghost m: nat)
    requires Neighbours(bl, br) && Cut(bl, order, free, kids, m) && j == Ring(order, m + 1)
    requires br.Valid() && |order| - m + |br.Children()| <= BT_MAX
    modifies br, br.next, br.prev, br.entries, bl`mask
    ensures FreedTo(bl, order, old(bl.mask), m, |order|)
    ensures br.Valid() && br.Children() == kids[m..] + old(br.Children())
  {
    ghost var right := br.Children();
    FillStart(br);
    var first := br.next[0];
    assert kids[m..m] == [] && kids[m..|order|] == kids[m..];
    var ip := MoveTail(bl, br, j, first, order, free, kids, m, right);
    FillEnd(br, ip, first, kids[m..], right);
  }

  /** What remains in front of the cut. */
  ghost method KeepFront(b: Node, order: seq<nat>, free: set<nat>, kids: seq<Entry>, m: nat)
    requires Cut(b, order, free, kids, m) && b.mask == free
    modifies b`order
    ensures b.Valid() && b.Children() == kids[..m]
  {
    b.order := order[..m];
  }

  /** The last `n` entries of `bl` move to the front of `br`. */
  method MoveBack(bl: Node, br: Node, n: nat)
    requires bl.Valid() && br.Valid() && Neighbours(bl, br)
    requires n < |bl.Children()| && |br.Children()| + n <= BT_MAX
    modifies bl, bl.next, bl.prev, bl.entries, br, br.next, br.prev, br.entries
    ensures bl.Valid() && br.Valid()
    ensures var m := |old(bl.Children())| - n;
            && bl.Children() == old(bl.Children())[..m]
            && br.Children() == old(bl.Children())[m..] + old(br.Children())
  {
    ghost var order, kids, m: nat := bl.order, bl.Children(), |bl.order| - n;
    ghost var free := Freeing(bl.mask, order[m..]);
    var ip := StepBack(bl, n);
    var j := CutAt(bl, ip, m);
    TakeOver(bl, br, j, order, free, kids, m);
    assert order[m..|order|] == order[m..] && bl.mask == free;
    KeepFront(bl, order, free, kids, m);
  }

  // ---- the whole left node ----------------------------------------------------------------------------------------

  method CopyOne(bl: Node, br: Node, j: nat, ip: nat, ghost first: nat, ghost d: nat, ghost right: seq<Entry>)
    returns (next: nat, i: nat)
    requires bl.Valid() && Neighbours(bl, br) && d < |bl.order| && j == bl.order[d]
    requires Filling(br, ip, first, bl.Children()[..d], right) && |bl.order| + |right| <= BT_MAX
    modifies br, br.next, br.prev, br.entries
    ensures next == Ring(bl.order, d + 2) && Filling(br, i, first, bl.Children()[..d + 1], right)
  {
    WalkOn(bl, d + 1);
    ghost var left := bl.Children();
    FillKids(left[..d], right, left[d]);
    assert left[..d + 1] == left[..d] + [left[d]];
    RingWithSlot(br.order, d, 0, d + 2);
    i := Append(br, ip, bl.entries[j], d);
    next := bl.next[j];
  }

  method CopyAll(bl: Node, br: Node, ghost first: nat, ghost right: seq<Entry>) returns (ip: nat)
    requires bl.Valid() && Neighbours(bl, br) && |bl.order| + |right| <= BT_MAX
    requires Filling(br, 0, first, bl.Children()[..0], right)
    modifies br, br.next, br.prev, br.entries
    ensures Filling(br, ip, first, bl.Children()[..|bl.order|], right)
  {
    ghost var d := 0;
    WalkOn(bl, 0);
    var j := bl.next[0];
    ip := 0;
    while j != 0
      invariant d <= |bl.order| && j == Ring(bl.order, d + 1)
      invariant Filling(br, ip, first, bl.Children()[..d], right)
      decreases |bl.order| - d
    {
      RingInside(bl.order, d, j);
      j, ip := CopyOne(bl, br, j, ip, first, d, right);
      d := d + 1;
    }
    RingInside(bl.order, d, j);
  }

  /** All entries of `bl` are copied to the front of `br`. */
  method MergeInto(bl: Node, br: Node)
    requires bl.Valid() && br.Valid() && Neighbours(bl, br) && |bl.Children()| + |br.Children()| <= BT_MAX
    modifies br, br.next, br.prev, br.entries
    ensures br.Valid() && br.Children() == bl.Children() + old(br.Children())
  {
    ghost var left, right := bl.Children(), br.Children();
    FillStart(br);
    var first := br.next[0];
    assert left[..0] == [] && left[..|bl.order|] == left;
    var ip := CopyAll(bl, br, first, right);
    FillEnd(br, ip, first, left, right);
  }

  method LastKey(b: Node) returns (key: nat)
    requires b.Valid() && b.Children() != []
    ensures key == b.Children()[|b.Children()| - 1].key
  {
    WalkOn(b, |b.order|);
    key := b.entries[b.prev[0]].key;
  }

  /** `btree_merge_aux`, called when one of the nodes has become too small. If both nodes remain, `key` is the new
      key of the left one. */
  method MergeAux(bl: Node, br: Node, ghost keyR: nat) returns (two: bool, key: nat)
    requires bl.Valid() && br.Valid() && Neighbours(bl, br)
    requires |bl.Children()| <= 3 || |br.Children()| <= 3
    modifies bl, bl.next, bl.prev, bl.entries, br, br.next, br.prev, br.entries
    ensures bl.Valid() && br.Valid()
    ensures MergePair(old(bl.Children()), old(br.Children()), keyR) ==
            if two then [Entry(key, BTree.Node(bl.Children())), Entry(keyR, BTree.Node(br.Children()))]
            else [Entry(keyR, BTree.Node(br.Children()))]
  {
    AtMostFull(bl);
    AtMostFull(br);
    var bcl := Count(bl);
    var bcr := Count(br);
    two, key := false, 0;
    if bcl + bcr <= BT_MAX {
      MergeInto(bl, br);
    } else {
      if bcr > bcl { MoveFront(bl, br, bcr / 3); } else { MoveBack(bl, br, bcl / 3); }
      key := LastKey(bl);
      two := true;
    }
  }

  lemma AtMostFull(b: Node)
    requires b.Valid()
    ensures |b.Children()| <= BT_MAX
  {
    MaskCount(b.order, b.mask);
  }

  // ---- splitting a full node ----------------------------------------------------------------------------------------

  /** The slots 1 to `n` in order. */
  function Row(n: nat): (r: seq<nat>)
    ensures |r| == n && forall k :: 0 <= k < n ==> r[k] == k + 1
  {
    seq(n, k => k + 1)
  }

  /** The slots from `i` on, a mask with the lower bits cleared. */
  function From(i: nat): (r: set<nat>)
    requires i > 0
    ensures forall s :: s in r <==> i <= s <= BT_MAX
  {
    Upto(BT_MAX) - Upto(i - 1)
  }

  lemma RowHas(n: nat)
    requires n <= BT_MAX
    ensures SlotsOk(Row(n)) && forall s :: s in Row(n) <==> 1 <= s <= n
  {
    forall s: nat ensures s in Row(n) <==> 1 <= s <= n {
      if 1 <= s <= n { assert Row(n)[s - 1] == s; }
    }
  }

  /** The slots below `i` of a new node hold the first entries of `all`, linked in a row. */
  ghost predicate Filled(b: Node, i: nat, all: seq<Entry>)
    reads b.next, b.prev, b.entries
  {
    && Framed(b) && 1 <= i <= BT_MAX && i - 1 <= |all|
    && (forall s :: 1 <= s < i ==> b.next[s] == s + 1 && b.prev[s] == s - 1 && b.entries[s] == all[s - 1])
  }

  method Put(b: Node, i: nat, e: Entry, ghost all: seq<Entry>)
    requires Filled(b, i, all) && i < BT_MAX && i <= |all| && e == all[i - 1]
    modifies b.next, b.prev, b.entries
    ensures Filled(b, i + 1, all)
  {
    b.entries[i] := e;
    b.next[i] := i + 1;
    b.prev[i] := i - 1;
  }

  lemma RowLinked(next: seq<nat>, prev: seq<nat>, n: nat, k: nat)
    requires |next| == |prev| == BT_MAX + 1 && 0 < n < BT_MAX && k <= n && SlotsOk(Row(n))
    requires forall s :: 1 <= s < n ==> next[s] == s + 1
    requires forall s :: 1 <= s <= n ==> prev[s] == s - 1
    requires next[0] == 1 && prev[0] == n && next[n] == 0
    ensures Linked(next, prev, Row(n), k)
  {
    if 0 < k < n { assert next[k] == k + 1 && prev[k + 1] == k; }
  }

  lemma RowThreaded(next: seq<nat>, prev: seq<nat>, n: nat)
    requires |next| == |prev| == BT_MAX + 1 && 0 < n < BT_MAX
    requires forall s :: 1 <= s < n ==> next[s] == s + 1
    requires forall s :: 1 <= s <= n ==> prev[s] == s - 1
    requires next[0] == 1 && prev[0] == n && next[n] == 0
    ensures Threaded(next, prev, From(n + 1), Row(n))
  {
    RowHas(n);
    var row := Row(n);
    forall k | 0 <= k <= n ensures Linked(next, prev, row, k) { RowLinked(next, prev, n, k); }
  }

  lemma RowListed(entries: seq<Entry>, all: seq<Entry>, n: nat)
    requires |entries| == BT_MAX + 1 && n <= BT_MAX && n <= |all| && SlotsOk(Row(n))
    requires forall s :: 1 <= s <= n ==> entries[s] == all[s - 1]
    ensures Listed(entries, Row(n)) == all[..n]
  {
    forall k | 0 <= k < n ensures Listed(entries, Row(n))[k] == all[k] { assert entries[k + 1] == all[k]; }
  }

  /** The last writes to the new node. */
  method Seal(b: Node, i: nat, ghost all: seq<Entry>)
    requires Filled(b, i, all) && i > 1
    modifies b, b.next, b.prev
    ensures b.Valid() && b.Children() == all[..i - 1]
  {
    b.next[0] := 1;
    b.prev[0] := i - 1;
    b.next[i - 1] := 0;
    RowThreaded(b.next[..], b.prev[..], i - 1);
    RowListed(b.entries[..], all, i - 1);
    b.mask := From(i);
    b.order := Row(i - 1);
  }

  /** All entries, with the new one in its place. */
  ghost function Among(es: seq<Entry>, p: nat, e: Entry): (all: seq<Entry>)
    requires p <= |es|
    ensures |all| == |es| + 1 && all[p] == e
  {
    es[..p] + [e] + es[p..]
  }

  lemma AmongAt(es: seq<Entry>, p: nat, e: Entry, c: nat)
    requires p <= |es| && c < |es|
    ensures Among(es, p, e)[if c < p then c else c + 1] == es[c]
  {
  }

  /** A node as it was. */
  datatype Image = Image(order: seq<nat>, mask: set<nat>, kids: seq<Entry>)

  /** Where the loop of the split stands after `c` entries. */
  ghost predicate Splitting(b: Node, tmp: Node, was: Image, e: Entry, p: nat, c: nat, i: nat, j: nat, inserted: bool)
    reads b, b.next, b.prev, b.entries, tmp.next, tmp.prev, tmp.entries
  {
    && p <= |was.kids| == BT_MAX && Still(b, was.order, was.mask, was.kids) && FreedTo(b, was.order, was.mask, 0, c)
    && c <= BT_MAX / 2
    && (inserted <==> p <= c) && i == (if inserted then c + 2 else c + 1) && j == Ring(was.order, c + 1)
    && (i <= BT_MAX / 2 + 1 || (i == BT_MAX / 2 + 2 && p == BT_MAX / 2))
    && Filled(tmp, i, Among(was.kids, p, e))
  }

  /** The slot of entry `c` is the one behind which the new entry belongs exactly for `p == c + 1`. */
  lemma BehindLoc(order: seq<nat>, p: nat, c: nat)
    requires SlotsOk(order) && p <= |order| && c < |order|
    ensures order[c] == Ring(order, p) <==> p == c + 1
  {
    if p != c + 1 { RingApart(order, p, c + 1); }
  }

  /** Entry `d` of `b` has been copied. */
  method Release(b: Node, j: nat, ghost was: Image, ghost d: nat) returns (next: nat)
    requires Still(b, was.order, was.mask, was.kids) && FreedTo(b, was.order, was.mask, 0, d)
    requires d < |was.order| && j == was.order[d]
    modifies b`mask
    ensures FreedTo(b, was.order, was.mask, 0, d + 1) && next == Ring(was.order, d + 2)
  {
    StillWalk(b, was.order, was.mask, was.kids, d);
    ReleasedNext(was.mask, was.order, 0, d, b.mask);
    next := b.next[j];
    b.mask := b.mask + {j};
  }

  /** Entry `c` goes to the new node, and the new entry follows if it belongs behind it. */
  method PutTwo(tmp: Node, i0: nat, x: Entry, here: bool, e: Entry, ghost es: seq<Entry>, ghost p: nat, ghost c: nat)
    returns (i: nat)
    requires c < BT_MAX / 2 && p <= |es| == BT_MAX && x == es[c] && (here <==> p == c + 1)
    requires i0 == (if p <= c then c + 2 else c + 1) && Filled(tmp, i0, Among(es, p, e))
    modifies tmp.next, tmp.prev, tmp.entries
    ensures i == (if p <= c + 1 then c + 3 else c + 2) && Filled(tmp, i, Among(es, p, e))
  {
    AmongAt(es, p, e, c);
    Put(tmp, i0, x, Among(es, p, e));
    i := i0 + 1;
    if here {
      Put(tmp, i, e, Among(es, p, e));
      i := i + 1;
    }
  }

  /** One round of the loop. */
  method SplitOne(b: Node, tmp: Node, loc: nat, e: Entry, i0: nat, j: nat, inserted0: bool,
                  ghost was: Image, ghost p: nat, ghost c: nat) returns (i: nat, next: nat, inserted: bool)
    requires Neighbours(b, tmp) && Splitting(b, tmp, was, e, p, c, i0, j, inserted0) && i0 <= BT_MAX / 2
    requires loc == Ring(was.order, p)
    modifies tmp.next, tmp.prev, tmp.entries, b`mask
    ensures Splitting(b, tmp, was, e, p, c + 1, i, next, inserted)
  {
    BehindLoc(was.order, p, c);
    i := PutTwo(tmp, i0, b.entries[j], j == loc, e, was.kids, p, c);
    inserted := inserted0 || j == loc;
    next := Release(b, j, was, c);
  }

  lemma BehindStart(order: seq<nat>, p: nat)
    requires SlotsOk(order) && p <= |order|
    ensures Ring(order, p) == 0 <==> p == 0
  {
  }

  ghost predicate Imaged(b: Node, was: Image)
    requires b.Valid()
    reads b, b.next, b.prev, b.entries
  {
    was == Image(b.order, b.mask, b.Children())
  }

  /** The new entry comes first if it belongs in front of all others. */
  method SplitStart(b: Node, tmp: Node, loc: nat, e: Entry, ghost was: Image, ghost p: nat)
    returns (i: nat, j: nat, inserted: bool)
    requires b.Valid() && Neighbours(b, tmp) && Framed(tmp) && p <= |b.order| == BT_MAX && loc == Ring(b.order, p)
    requires Imaged(b, was)
    modifies tmp.next, tmp.prev, tmp.entries
    ensures Splitting(b, tmp, was, e, p, 0, i, j, inserted)
  {
    WalkOn(b, 0);
    BehindStart(b.order, p);
    i, j, inserted := 1, b.next[0], false;
    if loc == 0 {
      Put(tmp, 1, e, Among(was.kids, p, e));
      i, inserted := 2, true;
    }
  }

  /** The loop: about half of the entries go to the new node. */
  method SplitLoop(b: Node, tmp: Node, loc: nat, e: Entry, i0: nat, j0: nat, inserted0: bool,
                   ghost was: Image, ghost p: nat) returns (i: nat, j: nat, inserted: bool, ghost c: nat)
    requires Neighbours(b, tmp) && Splitting(b, tmp, was, e, p, 0, i0, j0, inserted0) && loc == Ring(was.order, p)
    modifies tmp.next, tmp.prev, tmp.entries, b`mask
    ensures Splitting(b, tmp, was, e, p, c, i, j, inserted) && i > BT_MAX / 2
  {
    c := 0;
    i, j, inserted := i0, j0, inserted0;
    while i <= BT_MAX / 2
      invariant Splitting(b, tmp, was, e, p, c, i, j, inserted)
      decreases BT_MAX - c
    {
      i, j, inserted := SplitOne(b, tmp, loc, e, i, j, inserted, was, p, c);
      c := c + 1;
    }
  }

  /** Both nodes after the loop; the new entry may still be missing. */
  method SplitEnd(b: Node, tmp: Node, e: Entry, i: nat, j: nat, inserted: bool, ghost was: Image, ghost p: nat,
                  ghost c: nat)
    requires Neighbours(b, tmp) && Splitting(b, tmp, was, e, p, c, i, j, inserted) && i > BT_MAX / 2
    modifies b`order, b.next, b.prev, tmp, tmp.next, tmp.prev, tmp.entries
    ensures b.Valid() && b.order == was.order[c..] && b.Children() == was.kids[c..]
    ensures tmp.Valid() && tmp.Children() == Among(was.kids, p, e)[..i - 1]
  {
    DropFront(b, j, was.order, was.mask, was.kids, c);
    Seal(tmp, i, Among(was.kids, p, e));
  }

  /** The new entry goes to the upper part. */
  method PutRest(b: Node, loc: nat, e: Entry, ghost order: seq<nat>, ghost p: nat, ghost c: nat) returns (told: bool)
    requires b.Valid() && 0 < c < p <= |order| == BT_MAX && SlotsOk(order) && b.order == order[c..]
    requires loc == Ring(order, p)
    modifies b, b.next, b.prev, b.entries
    ensures b.Valid() && b.Children() == old(b.Children())[..p - c] + [e] + old(b.Children())[p - c..]
    ensures told <==> p == |order|
  {
    RingDrop(order, c, p - c);
    RingDrop(order, c, p - c + 1);
    WalkOn(b, p - c);
    told := b.next[loc] == 0;
    GapFree(b.order, b.mask);
    var slot := b.InsertAfter(loc, e, p - c);
  }

  ghost predicate Halved(es: seq<Entry>, p: nat, c: nat, i: nat, inserted: bool) {
    && p <= |es| == BT_MAX && c <= BT_MAX / 2 && (inserted <==> p <= c) && i == (if inserted then c + 2 else c + 1)
    && (i == BT_MAX / 2 + 1 || (i == BT_MAX / 2 + 2 && p == BT_MAX / 2))
  }

  /** The lower half of `b` is spread over the new node, together with the new entry if it belongs there. */
  method Spread(b: Node, tmp: Node, loc: nat, e: Entry, ghost p: nat) returns (i: nat, inserted: bool, ghost c: nat)
    requires b.Valid() && Neighbours(b, tmp) && Framed(tmp) && p <= |b.order| == BT_MAX && loc == Ring(b.order, p)
    modifies b, b.next, b.prev, b.entries, tmp, tmp.next, tmp.prev, tmp.entries
    ensures Halved(old(b.Children()), p, c, i, inserted)
    ensures b.Valid() && b.order == old(b.order)[c..] && b.Children() == old(b.Children())[c..]
    ensures tmp.Valid() && tmp.Children() == Among(old(b.Children()), p, e)[..i - 1]
  {
    ghost var was := Image(b.order, b.mask, b.Children());
    var j;
    i, j, inserted := SplitStart(b, tmp, loc, e, was, p);
    i, j, inserted, c := SplitLoop(b, tmp, loc, e, i, j, inserted, was, p);
    SplitEnd(b, tmp, e, i, j, inserted, was, p, c);
  }

  /** The two halves are those of the insertion on lists. */
  lemma SplitParts(es: seq<Entry>, p: nat, e: Entry, c: nat, i: nat, inserted: bool, right: seq<Entry>)
    requires Halved(es, p, c, i, inserted)
    requires right == if inserted then es[c..] else es[c..][..p - c] + [e] + es[c..][p - c..]
    ensures PutAt(es, p, e) == Split(Among(es, p, e)[..i - 1], right, if p == |es| then Some(e.key) else None)
  {
    assert Among(es, p, e)[i - 1..] == right;
  }

  /** The upper half, with the new entry if it is still missing. */
  method SplitRest(b: Node, loc: nat, e: Entry, inserted: bool, ghost order: seq<nat>, ghost p: nat, ghost c: nat)
    returns (told: bool)
    requires b.Valid() && c <= BT_MAX / 2 && p <= |order| == BT_MAX && SlotsOk(order) && (inserted <==> p <= c)
    requires b.order == order[c..] && loc == Ring(order, p) && (c == 0 ==> inserted)
    modifies b, b.next, b.prev, b.entries
    ensures b.Valid() && (told <==> p == |order|)
    ensures var es := old(b.Children());
            b.Children() == if inserted then es else es[..p - c] + [e] + es[p - c..]
  {
    told := false;
    if !inserted { told := PutRest(b, loc, e, order, p, c); }
  }

  method SplitTo(b: Node, tmp: Node, loc: nat, e: Entry, ghost p: nat) returns (told: bool)
    requires b.Valid() && Neighbours(b, tmp) && Framed(tmp) && p <= |b.order| == BT_MAX && loc == Ring(b.order, p)
    modifies b, b.next, b.prev, b.entries, tmp, tmp.next, tmp.prev, tmp.entries
    ensures tmp.Valid() && b.Valid() && tmp.Children() != []
    ensures PutAt(old(b.Children()), p, e) == Split(tmp.Children(), b.Children(), if told then Some(e.key) else None)
  {
    ghost var es, order := b.Children(), b.order;
    var i, inserted, c := Spread(b, tmp, loc, e, p);
    told := SplitRest(b, loc, e, inserted, order, p, c);
    SplitParts(es, p, e, c, i, inserted, b.Children());
  }

  /** `btree_node_insert_aux`: a full node is split. The new node holds the lower part, and `key` is its last key;
      `told` says that the parents learn of a new last key. */
  method SplitAux(b: Node, loc: nat, e: Entry, ghost p: nat) returns (tmp: Node, key: nat, told: bool)
    requires b.Valid() && p <= |b.order| == BT_MAX && loc == Ring(b.order, p)
    modifies b, b.next, b.prev, b.entries
    ensures fresh(tmp) && fresh(tmp.next) && fresh(tmp.prev) && fresh(tmp.entries)
    ensures tmp.Valid() && b.Valid() && tmp.Children() != []
    ensures PutAt(old(b.Children()), p, e) == Split(tmp.Children(), b.Children(), if told then Some(e.key) else None)
    ensures key == tmp.Children()[|tmp.Children()| - 1].key
  {
    tmp := new Node();
    told := SplitTo(b, tmp, loc, e, p);
    key := LastKey(tmp);
  }

  /** There is room: the new entry is linked in. */
  method FitIn(b: Node, loc: nat, e: Entry, ghost p: nat) returns (told: bool)
    requires b.Valid() && p <= |b.order| < BT_MAX && loc == Ring(b.order, p)
    modifies b, b.next, b.prev, b.entries
    ensures b.Valid() && PutAt(old(b.Children()), p, e) == Fit(b.Children(), if told then Some(e.key) else None)
  {
    GapFree(b.order, b.mask);
    WalkOn(b, p);
    BehindLast(b.order, p);
    told := b.next[loc] == 0;
    var slot := b.InsertAfter(loc, e, p);
  }

  lemma BehindLast(order: seq<nat>, p: nat)
    requires SlotsOk(order) && p <= |order|
    ensures Ring(order, p + 1) == 0 <==> p == |order|
  {
  }

  /** `btree_node_insert` on one node: a new entry behind slot `loc`. */
  method NodeInsert(b: Node, loc: nat, e: Entry, ghost p: nat) returns (tmp: Node?, key: nat, told: bool)
    requires b.Valid() && p <= |b.order| && loc == Ring(b.order, p)
    modifies b, b.next, b.prev, b.entries
    ensures b.Valid() && (tmp != null ==> tmp.Valid() && fresh(tmp) && tmp.Children() != [])
    ensures var up := if told then Some(e.key) else None;
            |old(b.Children())| <= BT_MAX &&
            PutAt(old(b.Children()), p, e) ==
            if tmp == null then Fit(b.Children(), up) else Split(tmp.Children(), b.Children(), up)
    ensures tmp != null ==> key == tmp.Children()[|tmp.Children()| - 1].key
  {
    FullIff(b.order, b.mask);
    AtMostFull(b);
    if b.mask != {} {
      told := FitIn(b, loc, e, p);
      tmp, key := null, 0;
    } else {
      tmp, key, told := SplitAux(b, loc, e, p);
    }
  }
}
