/** Inside one node of the tree of free blocks: the slots are linked by small indices, with 0 standing for
    both ends, and a mask of unused slots (`btree_alloc`, `btree_free`, the linking in `btree_node_insert`
    and `btree_node_del`; others/tmi/src/ll_alloc.c). The children of a node are the slots in link order. */
module BTreeNode {
  import opened BTree
  import opened BTreeInsert
  import opened BTreeDelete

  /** The slots 1 to `n`. */
  function Upto(n: nat): (r: set<nat>)
    ensures |r| == n && forall x :: x in r <==> 1 <= x <= n
  {
    if n == 0 then {} else Upto(n - 1) + {n}
  }

  /** The slots in order, with slot 0 in front and again at the end. */
  function Ring(order: seq<nat>, i: nat): nat
    requires i <= |order| + 1
  {
    if 1 <= i <= |order| then order[i - 1] else 0
  }

  predicate Linked(next: seq<nat>, prev: seq<nat>, order: seq<nat>, i: nat)
    requires i <= |order| && |next| == |prev| == BT_MAX + 1 && SlotsOk(order)
  {
    next[Ring(order, i)] == Ring(order, i + 1) && prev[Ring(order, i + 1)] == Ring(order, i)
  }

  predicate SlotsOk(order: seq<nat>) {
    && (forall i :: 0 <= i < |order| ==> 1 <= order[i] <= BT_MAX)
    && (forall i, j :: 0 <= i < j < |order| ==> order[i] != order[j])
  }

  /** The links and the mask describe the list `order`. */
  ghost predicate Threaded(next: seq<nat>, prev: seq<nat>, mask: set<nat>, order: seq<nat>) {
    && |next| == |prev| == BT_MAX + 1 && SlotsOk(order)
    && (forall s :: s in mask <==> 1 <= s <= BT_MAX && s !in order)
    && (forall i {:trigger Linked(next, prev, order, i)} :: 0 <= i <= |order| ==> Linked(next, prev, order, i))
  }

  // ---- inserting ------------------------------------------------------------------------------------------

  function WithSlot(order: seq<nat>, i: nat, s: nat): seq<nat>
    requires i <= |order|
  {
    order[..i] + [s] + order[i..]
  }

  lemma RingWithSlot(order: seq<nat>, i: nat, s: nat, k: nat)
    requires i <= |order| && k <= |order| + 2
    ensures Ring(WithSlot(order, i, s), k) ==
            if k <= i then Ring(order, k) else if k == i + 1 then s else Ring(order, k - 1)
  {}

  lemma RingApart(order: seq<nat>, i: nat, j: nat)
    requires SlotsOk(order) && i <= |order| && j <= |order| && i != j
    ensures Ring(order, i) != Ring(order, j)
  {
    if i > 0 && j > 0 { assert order[i - 1] != order[j - 1]; }
  }

  lemma WithSlotOk(order: seq<nat>, i: nat, s: nat)
    requires SlotsOk(order) && i <= |order| && 1 <= s <= BT_MAX && s !in order
    ensures SlotsOk(WithSlot(order, i, s)) && forall x :: x in WithSlot(order, i, s) <==> x == s || x in order
  {
    var o := WithSlot(order, i, s);
    forall x ensures x in o <==> x == s || x in order {
      assert order == order[..i] + order[i..];
      assert o[i] == s;
    }
    forall j, k | 0 <= j < k < |o| ensures o[j] != o[k] {
      var j0, k0 := if j < i then j else j - 1, if k < i then k else k - 1;
      if j != i && k != i { assert order[j0] != order[k0]; }
      else if j == i { assert order[k0] in order; }
      else { assert order[j0] in order; }
    }
  }

  /** The four writes that put slot `s` behind the `i`-th one. */
  function LinkIn(next: seq<nat>, loc: nat, s: nat): seq<nat>
    requires loc < |next| && s < |next|
  {
    next[s := next[loc]][loc := s]
  }

  function LinkBack(prev: seq<nat>, loc: nat, right: nat, s: nat): seq<nat>
    requires loc < |prev| && right < |prev| && s < |prev|
  {
    prev[right := s][s := loc]
  }

  lemma InsertLinked(next: seq<nat>, prev: seq<nat>, mask: set<nat>, order: seq<nat>, i: nat, s: nat, k: nat)
    requires Threaded(next, prev, mask, order) && i <= |order| && s in mask && k <= |order| + 1
    requires SlotsOk(WithSlot(order, i, s))
    ensures var loc, right := Ring(order, i), Ring(order, i + 1);
            Linked(LinkIn(next, loc, s), LinkBack(prev, loc, right, s), WithSlot(order, i, s), k)
  {
    assert Linked(next, prev, order, i);
    RingWithSlot(order, i, s, k);
    RingWithSlot(order, i, s, k + 1);
    var k0 := if k <= i then k else k - 1;
    assert Linked(next, prev, order, k0);
    if k0 != i { RingApart(order, k0, i); }
    if k0 != i && k0 < |order| && i < |order| { RingApart(order, k0 + 1, i + 1); }
  }

  lemma InsertThreaded(next: seq<nat>, prev: seq<nat>, mask: set<nat>, order: seq<nat>, i: nat, s: nat)
    requires Threaded(next, prev, mask, order) && i <= |order| && s in mask
    ensures var loc, right := Ring(order, i), Ring(order, i + 1);
            Threaded(LinkIn(next, loc, s), LinkBack(prev, loc, right, s), mask - {s}, WithSlot(order, i, s))
  {
    WithSlotOk(order, i, s);
    var loc, right := Ring(order, i), Ring(order, i + 1);
    forall k | 0 <= k <= |order| + 1
      ensures Linked(LinkIn(next, loc, s), LinkBack(prev, loc, right, s), WithSlot(order, i, s), k)
    {
      InsertLinked(next, prev, mask, order, i, s, k);
    }
  }

  // ---- removing --------------------------------------------------------------------------------------------

  lemma RingWithout(order: seq<nat>, i: nat, k: nat)
    requires i < |order| && k <= |order|
    ensures Ring(Without(order, i), k) == if k <= i then Ring(order, k) else Ring(order, k + 1)
  {}

  lemma WithoutSlots(order: seq<nat>, i: nat)
    requires SlotsOk(order) && i < |order|
    ensures SlotsOk(Without(order, i)) && forall x :: x in Without(order, i) <==> x in order && x != order[i]
  {
    var o := Without(order, i);
    forall x ensures x in o <==> x in order && x != order[i] {
      if x in order && x != order[i] {
        var j :| 0 <= j < |order| && order[j] == x;
        assert o[if j < i then j else j - 1] == x;
      }
    }
  }

  lemma DeleteLinked(next: seq<nat>, prev: seq<nat>, mask: set<nat>, order: seq<nat>, i: nat, k: nat)
    requires Threaded(next, prev, mask, order) && i < |order| && k < |order| && SlotsOk(Without(order, i))
    ensures var left, right := Ring(order, i), Ring(order, i + 2);
            Linked(next[left := right], prev[right := left], Without(order, i), k)
  {
    RingWithout(order, i, k);
    RingWithout(order, i, k + 1);
    var k0 := if k <= i then k else k + 1;
    assert Linked(next, prev, order, k0) && Linked(next, prev, order, i) && Linked(next, prev, order, i + 1);
    if k0 != i { RingApart(order, k0, i); }
    if k0 < |order| && i + 1 < |order| && k0 != i + 1 { RingApart(order, k0 + 1, i + 2); }
  }

  lemma DeleteThreaded(next: seq<nat>, prev: seq<nat>, mask: set<nat>, order: seq<nat>, i: nat)
    requires Threaded(next, prev, mask, order) && i < |order|
    ensures var left, right := Ring(order, i), Ring(order, i + 2);
            Threaded(next[left := right], prev[right := left], mask + {order[i]}, Without(order, i))
  {
    WithoutSlots(order, i);
    var left, right := Ring(order, i), Ring(order, i + 2);
    var next', prev' := next[left := right], prev[right := left];
    forall k | 0 <= k < |order| ensures Linked(next', prev', Without(order, i), k) {
      DeleteLinked(next, prev, mask, order, i, k);
    }
    assert order[i] in order;
  }

  // ---- the node ---------------------------------------------------------------------------------------------

  /** The entries of the slots in order. */
  function Listed(entries: seq<Entry>, order: seq<nat>): (r: seq<Entry>)
    requires |entries| == BT_MAX + 1 && SlotsOk(order)
    ensures |r| == |order| && forall i :: 0 <= i < |r| ==> r[i] == entries[order[i]]
  {
    seq(|order|, i requires 0 <= i < |order| => entries[order[i]])
  }

  lemma ListedInsert(entries: seq<Entry>, order: seq<nat>, i: nat, s: nat, e: Entry)
    requires |entries| == BT_MAX + 1 && SlotsOk(order) && i <= |order| && 1 <= s <= BT_MAX && s !in order
    ensures SlotsOk(WithSlot(order, i, s))
    ensures var es := Listed(entries, order); Listed(entries[s := e], WithSlot(order, i, s)) == es[..i] + [e] + es[i..]
  {
    WithSlotOk(order, i, s);
    var es, o := Listed(entries, order), WithSlot(order, i, s);
    forall k | 0 <= k < |o| ensures Listed(entries[s := e], o)[k] == (es[..i] + [e] + es[i..])[k] {
      if k < i { assert order[k] in order; } else if k > i { assert order[k - 1] in order; }
    }
  }

  /** Three steps along the links from the first slot: what `btree_node_del` tests instead of counting. */
  function ThreeOn(next: seq<nat>): nat
    requires |next| == BT_MAX + 1 && next[0] <= BT_MAX && next[next[0]] <= BT_MAX && next[next[next[0]]] <= BT_MAX
  {
    next[next[next[next[0]]]]
  }

  class Node {
    const next: array<nat>
    const prev: array<nat>
    const entries: array<Entry>
    var mask: set<nat>
    ghost var order: seq<nat>

    ghost predicate Valid()
      reads this, next, prev, entries
    {
      && next != prev && entries.Length == BT_MAX + 1 && next.Length == BT_MAX + 1 && prev.Length == BT_MAX + 1
      && Threaded(next[..], prev[..], mask, order)
    }

    ghost function Children(): seq<Entry>
      requires Valid()
      reads this, next, prev, entries
    {
      Listed(entries[..], order)
    }

    constructor ()
      ensures Valid() && Children() == [] && fresh(next) && fresh(prev) && fresh(entries)
    {
      var slots: set<nat> := {};
      for s := 1 to BT_MAX + 1
        invariant forall x :: x in slots <==> 1 <= x < s
      {
        slots := slots + {s};
      }
      next, prev := new nat[BT_MAX + 1](_ => 0), new nat[BT_MAX + 1](_ => 0);
      entries := new Entry[BT_MAX + 1](_ => Entry(0, Leaf(Block(0, 0))));
      mask, order := slots, [];
      new;
      assert Linked(next[..], prev[..], order, 0);
    }

    /** `btree_alloc` and the linking: a new entry behind slot `loc`, which is the `i`-th (0 for none). */
    method InsertAfter(loc: nat, e: Entry, ghost i: nat) returns (s: nat)
      requires Valid() && mask != {} && i <= |order| && loc == Ring(order, i)
      modifies this, next, prev, entries
      ensures Valid() && order == WithSlot(old(order), i, s)
      ensures Children() == old(Children())[..i] + [e] + old(Children())[i..]
    {
      s :| s in mask;
      InsertThreaded(next[..], prev[..], mask, order, i, s);
      ListedInsert(entries[..], order, i, s, e);
      assert Linked(next[..], prev[..], order, i);
      ghost var n0, p0, e0 := next[..], prev[..], entries[..];
      var right := next[loc];
      mask := mask - {s};
      entries[s] := e;
      next[s] := right;
      next[loc] := s;
      prev[right] := s;
      prev[s] := loc;
      assert next[..] == LinkIn(n0, loc, s) && prev[..] == LinkBack(p0, loc, right, s) && entries[..] == e0[s := e];
      order := WithSlot(order, i, s);
    }

    /** The unlinking in `btree_node_del`; `loc` is the slot of child `i`. */
    method Delete(loc: nat, ghost i: nat)
      requires Valid() && i < |order| && loc == order[i]
      modifies this, next, prev
      ensures Valid() && order == Without(old(order), i)
      ensures Children() == Without(old(Children()), i)
    {
      DeleteThreaded(next[..], prev[..], mask, order, i);
      assert Linked(next[..], prev[..], order, i) && Linked(next[..], prev[..], order, i + 1);
      ghost var n0, p0 := next[..], prev[..];
      var left, right := prev[loc], next[loc];
      next[left] := right;
      prev[right] := left;
      mask := mask + {loc};
      assert next[..] == n0[left := right] && prev[..] == p0[right := left];
      order := Without(order, i);
    }

    /** The scan of one level in `btree_search`: the slot of the first child whose key is large enough. */
    method Scan(size: nat) returns (loc: nat)
      requires Valid()
      ensures Pos(Children(), size) < |order| ==> loc == order[Pos(Children(), size)]
      ensures Pos(Children(), size) == |order| ==> loc == 0
    {
      ghost var i := 0;
      assert Linked(next[..], prev[..], order, 0);
      loc := next[0];
      while loc != 0 && entries[loc].key < size
        invariant i <= |order| && loc == Ring(order, i + 1)
        invariant forall j :: 0 <= j < i ==> Children()[j].key < size
        decreases |order| - i
      {
        i := i + 1;
        assert Linked(next[..], prev[..], order, i);
        loc := next[loc];
      }
    }

    /** The test for at most three children. It is wrong for two, which cannot remain in a node that had
        at least four. */
    method FewChildren() returns (few: bool)
      requires Valid()
      ensures few <==> |Children()| == 0 || |Children()| == 1 || |Children()| == 3
      ensures (few <==> |Children()| <= 3) <==> |Children()| != 2
    {
      var n := next[..];
      assert Linked(n, prev[..], order, 0);
      if |order| >= 1 { assert Linked(n, prev[..], order, 1); }
      if |order| >= 2 { assert Linked(n, prev[..], order, 2); }
      if |order| >= 3 { assert Linked(n, prev[..], order, 3); }
      few := ThreeOn(n) == 0;
    }
  }

  /** The slots of the list as a set. */
  ghost function Used(order: seq<nat>): set<nat> {
    if order == [] then {} else Used(order[..|order| - 1]) + {order[|order| - 1]}
  }

  lemma {:induction false} UsedHas(order: seq<nat>, x: nat)
    ensures x in Used(order) <==> x in order
  {
    if order != [] {
      UsedHas(order[..|order| - 1], x);
      assert order == order[..|order| - 1] + [order[|order| - 1]];
    }
  }

  lemma {:induction false} UsedCount(order: seq<nat>)
    requires SlotsOk(order)
    ensures |Used(order)| == |order|
  {
    if order != [] {
      var o := order[..|order| - 1];
      UsedCount(o);
      UsedHas(o, order[|order| - 1]);
    }
  }

  /** A node is full exactly when no bit of the mask is left. */
  lemma FullIff(order: seq<nat>, mask: set<nat>)
    requires SlotsOk(order) && forall s :: s in mask <==> 1 <= s <= BT_MAX && s !in order
    ensures mask == {} <==> |order| == BT_MAX
  {
    UsedCount(order);
    var all := Upto(BT_MAX);
    forall x ensures x in Used(order) <==> x in order { UsedHas(order, x); }
    assert mask == all - Used(order);
    if |order| == BT_MAX { Whole(Used(order), all); }
  }

  lemma {:induction false} Whole(a: set<nat>, b: set<nat>)
    requires a <= b && |a| == |b|
    ensures a == b
  {
    if a != {} {
      var x :| x in a;
      Whole(a - {x}, b - {x});
    }
  }
}
