/** The 16-way tree of free blocks of the Lockless allocator
    (`btree_*`, others/tmi/src/ll_alloc.c). */
module BTree {
  const BT_MAX: nat := 16

  /** A free block: its address and its size. */
  datatype Block = Block(addr: nat, size: nat)

  /** A node holds up to `BT_MAX` entries; each key repeats the largest size below it. */
  datatype Tree = Leaf(block: Block) | Node(es: seq<Entry>)
  datatype Entry = Entry(key: nat, child: Tree)


  // ---- the tree as a list of blocks -----------------------------------------------------------

  function Flat(t: Tree): seq<Block>
    decreases t
  {
    match t
    case Leaf(b) => [b]
    case Node(es) => FlatAll(es)
  }

  function FlatAll(es: seq<Entry>): seq<Block>
    decreases es
  {
    if es == [] then [] else FlatEntry(es[0]) + FlatAll(es[1..])
  }

  function FlatEntry(e: Entry): seq<Block>
    decreases e
  {
    Flat(e.child)
  }

  lemma {:induction false} FlatAppend(a: seq<Entry>, b: seq<Entry>)
    ensures FlatAll(a + b) == FlatAll(a) + FlatAll(b)
  {
    if a == [] { assert a + b == b; }
    else {
      assert (a + b)[1..] == a[1..] + b;
      FlatAppend(a[1..], b);
    }
  }

  lemma FlatOne(e: Entry)
    ensures FlatAll([e]) == Flat(e.child)
  {}

  /** The list seen around entry `c`. */
  lemma {:induction false} FlatAround(es: seq<Entry>, c: nat)
    requires c < |es|
    ensures FlatAll(es) == FlatAll(es[..c]) + Flat(es[c].child) + FlatAll(es[c + 1..])
    decreases c
  {
    if c > 0 {
      assert es[1..][..c - 1] == es[..c][1..] && es[1..][c..] == es[c + 1..];
      FlatAround(es[1..], c - 1);
    }
  }

  /** The list after entry `c` has been replaced. */
  lemma FlatReplace(es: seq<Entry>, c: nat, e: Entry)
    requires c < |es|
    ensures FlatAll(es[c := e]) == FlatAll(es[..c]) + Flat(e.child) + FlatAll(es[c + 1..])
  {
    var es' := es[c := e];
    FlatAround(es', c);
    assert es'[..c] == es[..c] && es'[c + 1..] == es[c + 1..];
  }

  predicate SortedBlocks(s: seq<Block>) {
    forall i, j :: 0 <= i < j < |s| ==> s[i].size <= s[j].size
  }

  // ---- well-formedness --------------------------------------------------------------------------

  function MaxSize(s: seq<Block>): nat { if s == [] then 0 else s[|s| - 1].size }

  /** A non-root node of height `h`: 4 to 16 children, all leaves at one depth. */
  predicate Ok(t: Tree, h: nat)
    decreases h, 0
  {
    if h == 0 then t.Leaf? else t.Node? && 4 <= |t.es| <= BT_MAX && OkAll(t.es, h - 1)
  }

  predicate OkAll(es: seq<Entry>, h: nat)
    decreases h, 2
  {
    forall i :: 0 <= i < |es| ==> OkEntry(es[i], h)
  }

  /** The key equals the maximum of the subtree (its last block, as blocks are in order). */
  predicate OkEntry(e: Entry, h: nat)
    decreases h, 1
  {
    Ok(e.child, h) && e.key == MaxSize(Flat(e.child))
  }

  function Pow4(h: nat): (p: nat)
    ensures p > h
  {
    if h == 0 then 1 else 4 * Pow4(h - 1)
  }

  lemma {:induction false} FlatLarge(t: Tree, h: nat)
    requires Ok(t, h)
    ensures |Flat(t)| >= Pow4(h)
    decreases h
  {
    if h > 0 {
      var es := t.es;
      assert es == [es[0], es[1], es[2], es[3]] + es[4..];
      FlatAppend([es[0], es[1], es[2], es[3]], es[4..]);
      assert [es[0], es[1], es[2], es[3]] == [es[0]] + ([es[1]] + ([es[2]] + [es[3]]));
      FlatAppend([es[0]], [es[1]] + ([es[2]] + [es[3]]));
      FlatAppend([es[1]], [es[2]] + [es[3]]);
      FlatAppend([es[2]], [es[3]]);
      forall i | 0 <= i < 4 ensures |FlatAll([es[i]])| >= Pow4(h - 1) {
        FlatOne(es[i]);
        assert OkEntry(es[i], h - 1);
        FlatLarge(es[i].child, h - 1);
      }
    }
  }

  /** The last key is the size of the last block. */
  lemma LastKey(es: seq<Entry>, h: nat)
    requires es != [] && OkAll(es, h)
    ensures FlatAll(es) != [] && MaxSize(FlatAll(es)) == es[|es| - 1].key
  {
    var n := |es| - 1;
    FlatAround(es, n);
    assert OkEntry(es[n], h);
    FlatLarge(es[n].child, h);
  }

  lemma OkSlice(es: seq<Entry>, h: nat, lo: nat, hi: nat)
    requires OkAll(es, h) && lo <= hi <= |es|
    ensures OkAll(es[lo..hi], h)
  {}

  lemma OkAppend(a: seq<Entry>, b: seq<Entry>, h: nat)
    requires OkAll(a, h) && OkAll(b, h)
    ensures OkAll(a + b, h)
  {}

  lemma OkReplace(es: seq<Entry>, c: nat, e: Entry, h: nat)
    requires OkAll(es, h) && c < |es| && OkEntry(e, h)
    ensures OkAll(es[c := e], h)
  {}
}
