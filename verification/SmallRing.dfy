/** The list of free blocks of 16 bytes (`small_insert`, `small_remove`, `small_del_first`, `small_merge`;
    others/tmi/src/ll_alloc.c). Its links lie in the separators: the back link of a block overwrites its own word, the
    forward link lies where the separator to the right keeps its pointer to the left. */
module SmallRing {
  import opened Options
  import opened BoundaryTags
  import opened TagSteps

  /** The blocks in order, with the list head, written 0, in front and again at the end. */
  function Stop(order: seq<nat>, i: nat): nat
    requires i <= |order| + 1
  {
    if 1 <= i <= |order| then order[i - 1] else 0
  }

  predicate Places(m: seq<Sep>, order: seq<nat>) {
    && (forall i :: 0 <= i < |order| ==> 1 <= order[i] && order[i] + 1 < |m|)
    && (forall i, j :: 0 <= i < j < |order| ==> order[i] != order[j])
  }

  /** `small_next` and `small_prev`; the head keeps its own two links. */
  function Next(m: seq<Sep>, first: int, b: nat): int
    requires b + 1 < |m| || b == 0
  {
    if b == 0 then first else m[b + 1].before.left
  }

  function Back(m: seq<Sep>, last: int, b: nat): Word
    requires b < |m| || b == 0
  {
    if b == 0 then Link(last) else m[b].own.word
  }

  predicate Joint(m: seq<Sep>, first: int, last: int, order: seq<nat>, i: nat)
    requires i <= |order| && Places(m, order)
  {
    Next(m, first, Stop(order, i)) == Stop(order, i + 1) && Back(m, last, Stop(order, i + 1)) == Link(Stop(order, i))
  }

  /** The links run through `order` in both directions. */
  ghost predicate Ring(m: seq<Sep>, first: int, last: int, order: seq<nat>) {
    Places(m, order) && forall i {:trigger Joint(m, first, last, order, i)} :: 0 <= i <= |order| ==>
      Joint(m, first, last, order, i)
  }

  lemma StopApart(m: seq<Sep>, order: seq<nat>, i: nat, j: nat)
    requires Places(m, order) && i <= |order| && j <= |order| && i != j
    ensures Stop(order, i) != Stop(order, j) && Stop(order, i + 1) != Stop(order, j + 1)
  {
    if i > 0 && j > 0 { assert order[i - 1] != order[j - 1]; }
    if i < |order| && j < |order| { assert order[i] != order[j]; }
  }

  // ---- writing links ------------------------------------------------------------------------------------------------

  function WithNext(m: seq<Sep>, b: nat, n: int): (r: seq<Sep>)
    requires b + 1 < |m| || b == 0
    ensures |r| == |m|
  {
    if b == 0 then m else m[b + 1 := m[b + 1].(before := m[b + 1].before.(left := n))]
  }

  /** `set_small_prev` keeps the flags. */
  function WithBack(m: seq<Sep>, b: nat, p: int): (r: seq<Sep>)
    requires b < |m| || b == 0
    ensures |r| == |m|
  {
    if b == 0 then m else m[b := m[b].(own := m[b].own.(word := Link(p)))]
  }

  lemma LinksWritten(m: seq<Sep>, l: nat, r: nat, x: nat)
    requires (l == 0 || l + 1 < |m|) && (r == 0 || r + 1 < |m|) && (x == 0 || x + 1 < |m|)
    ensures var m' := WithBack(WithNext(m, l, r), r, l);
            && (x != l && x != 0 ==> m'[x + 1].before.left == m[x + 1].before.left)
            && (x != r && x != 0 ==> m'[x].own.word == m[x].own.word)
            && (l != 0 ==> m'[l + 1].before.left == r) && (r != 0 ==> m'[r].own.word == Link(l))
  {
  }

  // ---- removal ------------------------------------------------------------------------------------------------------

  function Dropped(order: seq<nat>, i: nat): seq<nat>
    requires i < |order|
  {
    order[..i] + order[i + 1..]
  }

  lemma StopDropped(order: seq<nat>, i: nat, k: nat)
    requires i < |order| && k <= |order|
    ensures Stop(Dropped(order, i), k) == if k <= i then Stop(order, k) else Stop(order, k + 1)
  {
  }

  lemma DroppedPlaces(m: seq<Sep>, order: seq<nat>, i: nat)
    requires Places(m, order) && i < |order|
    ensures Places(m, Dropped(order, i))
  {
    var o := Dropped(order, i);
    forall j, k | 0 <= j < k < |o| ensures o[j] != o[k] {
      assert order[if j < i then j else j + 1] != order[if k < i then k else k + 1];
    }
  }

  lemma DropElsewhere(m: seq<Sep>, first: int, last: int, order: seq<nat>, i: nat, k: nat)
    requires Ring(m, first, last, order) && i < |order| && k <= |order| && k != i && k != i + 1
    ensures var l, r := Stop(order, i), Stop(order, i + 2);
            Joint(WithBack(WithNext(m, l, r), r, l), if l == 0 then r else first, if r == 0 then l else last, order, k)
  {
    var l, r := Stop(order, i), Stop(order, i + 2);
    assert Joint(m, first, last, order, k);
    StopApart(m, order, k, i);
    StopApart(m, order, k, i + 1);
    LinksWritten(m, l, r, Stop(order, k));
    LinksWritten(m, l, r, Stop(order, k + 1));
  }

  lemma JointSame(m: seq<Sep>, first: int, last: int, a: seq<nat>, i: nat, b: seq<nat>, k: nat)
    requires Places(m, a) && Places(m, b) && i <= |a| && k <= |b| && Joint(m, first, last, a, i)
    requires Stop(a, i) == Stop(b, k) && Stop(a, i + 1) == Stop(b, k + 1)
    ensures Joint(m, first, last, b, k)
  {
  }

  lemma DropJoint(m: seq<Sep>, first: int, last: int, order: seq<nat>, i: nat, k: nat)
    requires Ring(m, first, last, order) && i < |order| && k < |order| && Places(m, Dropped(order, i))
    ensures var l, r := Stop(order, i), Stop(order, i + 2);
            Joint(WithBack(WithNext(m, l, r), r, l), if l == 0 then r else first, if r == 0 then l else last,
                  Dropped(order, i), k)
  {
    var l, r := Stop(order, i), Stop(order, i + 2);
    StopDropped(order, i, k);
    StopDropped(order, i, k + 1);
    if k == i {
      LinksWritten(m, l, r, l);
    } else {
      var k0 := if k < i then k else k + 1;
      DropElsewhere(m, first, last, order, i, k0);
      JointSame(WithBack(WithNext(m, l, r), r, l), if l == 0 then r else first, if r == 0 then l else last,
                order, k0, Dropped(order, i), k);
    }
  }

  /** Unlinking block `i`. */
  lemma DropRing(m: seq<Sep>, first: int, last: int, order: seq<nat>, i: nat)
    requires Ring(m, first, last, order) && i < |order|
    ensures var l, r := Stop(order, i), Stop(order, i + 2);
            Ring(WithBack(WithNext(m, l, r), r, l), if l == 0 then r else first, if r == 0 then l else last,
                 Dropped(order, i))
  {
    var l, r := Stop(order, i), Stop(order, i + 2);
    var m', first', last', order' := WithBack(WithNext(m, l, r), r, l), if l == 0 then r else first,
                                     if r == 0 then l else last, Dropped(order, i);
    DroppedPlaces(m, order, i);
    forall k | 0 <= k <= |order'| ensures Joint(m', first', last', order', k) {
      DropJoint(m, first, last, order, i, k);
    }
  }

  // ---- insertion and merging ----------------------------------------------------------------------------------------

  /** The links inside `order`, without those at its ends. */
  ghost predicate Chain(m: seq<Sep>, order: seq<nat>) {
    && Places(m, order)
    && (forall i :: 0 < i < |order| ==> m[order[i - 1] + 1].before.left == order[i])
    && (forall i :: 0 < i < |order| ==> m[order[i]].own.word == Link(order[i - 1]))
  }

  lemma RingChain(m: seq<Sep>, first: int, last: int, order: seq<nat>)
    requires Ring(m, first, last, order)
    ensures Chain(m, order)
  {
    forall i | 0 < i < |order|
      ensures m[order[i - 1] + 1].before.left == order[i] && m[order[i]].own.word == Link(order[i - 1])
    {
      assert Joint(m, first, last, order, i);
    }
  }

  /** The writes that put the chain from `f` to `e` behind block `l`. */
  function Spliced(m: seq<Sep>, l: nat, f: nat, e: nat): (r: seq<Sep>)
    requires (l == 0 || l + 1 < |m|) && f + 1 < |m| && e + 1 < |m|
    ensures |r| == |m|
  {
    WithNext(WithBack(WithNext(m, l, f), f, l), e, 0)
  }

  lemma SpliceWritten(m: seq<Sep>, l: nat, f: nat, e: nat, x: nat)
    requires (l == 0 || l + 1 < |m|) && 0 < f && f + 1 < |m| && 0 < e && e + 1 < |m| && l != e && 0 < x && x + 1 < |m|
    ensures var m' := Spliced(m, l, f, e);
            && (x != l && x != e ==> m'[x + 1].before.left == m[x + 1].before.left)
            && (x != f ==> m'[x].own.word == m[x].own.word)
            && (l != 0 ==> m'[l + 1].before.left == f) && m'[f].own.word == Link(l) && m'[e + 1].before.left == 0
  {
  }

  lemma StopBoth(a: seq<nat>, b: seq<nat>, k: nat)
    requires k <= |a| + |b| + 1
    ensures Stop(a + b, k) == if k <= |a| then Stop(a, k) else Stop(b, k - |a|)
  {
  }

  lemma SpliceFront(m: seq<Sep>, first: int, last: int, a: seq<nat>, b: seq<nat>, k: nat)
    requires Ring(m, first, last, a) && b != [] && Places(m, a + b) && Places(m, b) && k < |a|
    ensures var l, f, e := a[|a| - 1], b[0], b[|b| - 1]; Joint(Spliced(m, l, f, e), first, e, a + b, k)
  {
    var l, f, e, o := a[|a| - 1], b[0], b[|b| - 1], a + b;
    StopBoth(a, b, k);
    StopBoth(a, b, k + 1);
    EndsApart(m, a, b);
    assert Joint(m, first, last, a, k);
    assert o[k] != o[|a|];
    SpliceWritten(m, l, f, e, a[k]);
    if k > 0 {
      assert o[k - 1] != o[|a| - 1] && o[k - 1] != o[|o| - 1];
      SpliceWritten(m, l, f, e, a[k - 1]);
    }
  }

  lemma SpliceBack(m: seq<Sep>, first: int, a: seq<nat>, b: seq<nat>, i: nat)
    requires Chain(m, b) && Places(m, a) && Places(m, a + b) && 0 < i < |b|
    ensures var l, f, e := Stop(a, |a|), b[0], b[|b| - 1]; Joint(Spliced(m, l, f, e), first, e, a + b, |a| + i)
  {
    var l, f, e, o, k := Stop(a, |a|), b[0], b[|b| - 1], a + b, |a| + i;
    StopBoth(a, b, k);
    StopBoth(a, b, k + 1);
    EndsApart(m, a, b);
    assert o[k - 1] != o[|o| - 1] && o[k] != o[|a|] && (|a| > 0 ==> o[k - 1] != o[|a| - 1]);
    SpliceWritten(m, l, f, e, b[i - 1]);
    SpliceWritten(m, l, f, e, b[i]);
  }

  lemma SpliceJoint(m: seq<Sep>, first: int, last: int, a: seq<nat>, b: seq<nat>, k: nat)
    requires Ring(m, first, last, a) && Chain(m, b) && b != [] && Places(m, a + b) && k <= |a| + |b|
    ensures var l, f, e := Stop(a, |a|), b[0], b[|b| - 1];
            Joint(Spliced(m, l, f, e), if l == 0 then f else first, e, a + b, k)
  {
    var l, f, e := Stop(a, |a|), b[0], b[|b| - 1];
    if k < |a| {
      SpliceFront(m, first, last, a, b, k);
    } else if |a| < k < |a| + |b| {
      SpliceBack(m, if l == 0 then f else first, a, b, k - |a|);
    } else {
      StopBoth(a, b, k);
      StopBoth(a, b, k + 1);
      EndsApart(m, a, b);
      SpliceWritten(m, l, f, e, f);
    }
  }

  lemma EndsApart(m: seq<Sep>, a: seq<nat>, b: seq<nat>)
    requires Places(m, a + b) && b != []
    ensures Stop(a, |a|) != b[|b| - 1]
  {
    var o := a + b;
    if a != [] { assert o[|a| - 1] != o[|o| - 1]; }
  }

  /** A chain put behind the last block of a ring. */
  lemma SpliceRing(m: seq<Sep>, first: int, last: int, a: seq<nat>, b: seq<nat>)
    requires Ring(m, first, last, a) && Chain(m, b) && b != [] && Places(m, a + b)
    ensures var l, f, e := Stop(a, |a|), b[0], b[|b| - 1];
            Ring(Spliced(m, l, f, e), if l == 0 then f else first, e, a + b)
  {
    var l, f, e := Stop(a, |a|), b[0], b[|b| - 1];
    var m', first', o := Spliced(m, l, f, e), if l == 0 then f else first, a + b;
    forall k | 0 <= k <= |o| ensures Joint(m', first', e, o, k) { SpliceJoint(m, first, last, a, b, k); }
  }

  // ---- the links do not disturb the separators ----------------------------------------------------------------------

  ghost predicate AllTiny(blk: Blocks, order: seq<nat>) { forall b :: b in order ==> b in blk && Tiny(blk[b]) }

  /** Only link cells of listed blocks differ. */
  ghost predicate SameButLinks(m: seq<Sep>, m': seq<Sep>, order: seq<nat>) {
    && |m'| == |m|
    && (forall x :: 0 <= x < |m| ==> SepAlike(m[x], m'[x], x in order, x - 1 in order))
  }

  predicate SepAlike(a: Sep, b: Sep, listed: bool, behind: bool) {
    && b.own.unused == a.own.unused && b.own.size8 == a.own.size8
    && (b.own.word == a.own.word || (listed && a.own.word.Link? && b.own.word.Link?))
    && b.before.lunused == a.before.lunused && b.before.lsize8 == a.before.lsize8
    && (b.before.left == a.before.left || behind)
  }

  lemma AlikeTagged(m: seq<Sep>, m': seq<Sep>, blk: Blocks, end: nat, order: seq<nat>, s: nat)
    requires |m| == end + 1 && Tiled(blk, end) && SameButLinks(m, m', order) && AllTiny(blk, order)
    requires s in blk && Fits(blk, s, end) && Tagged(m, blk, s)
    ensures Tagged(m', blk, s)
  {
    var r := s + blk[s].size;
    assert SepAlike(m[s], m'[s], s in order, s - 1 in order) && SepAlike(m[r], m'[r], r in order, r - 1 in order);
    if r - 1 in order { assert InTurn(blk, s, r - 1) && InTurn(blk, r - 1, s); }
  }

  lemma EndNoBlock(blk: Blocks, end: nat)
    requires Tiled(blk, end)
    ensures end !in blk
  {
    forall s | s in blk ensures s != end { assert Fits(blk, s, end); }
  }

  lemma AlikeEdges(m: seq<Sep>, m': seq<Sep>, blk: Blocks, end: nat, order: seq<nat>)
    requires 1 < end && |m| == end + 1 && Tiled(blk, end) && Edges(m, end)
    requires SameButLinks(m, m', order) && AllTiny(blk, order)
    ensures Edges(m', end)
  {
    assert SepAlike(m[end], m'[end], end in order, end - 1 in order) && SepAlike(m[1], m'[1], 1 in order, 0 in order);
    EndNoBlock(blk, end);
  }

  lemma LinksKeepMost(m: seq<Sep>, m': seq<Sep>, blk: Blocks, end: nat, o: nat, order: seq<nat>)
    requires TagsBut(m, blk, end, o) && SameButLinks(m, m', order) && AllTiny(blk, order)
    ensures TagsBut(m', blk, end, o)
  {
    forall s | s in blk && s != o && Fits(blk, s, end) ensures Tagged(m', blk, s) {
      assert Tagged(m, blk, s);
      AlikeTagged(m, m', blk, end, order, s);
    }
    AlikeEdges(m, m', blk, end, order);
  }

  /** Whatever the list does to its links, all separators stay true. */
  lemma LinksKeepTags(m: seq<Sep>, m': seq<Sep>, blk: Blocks, end: nat, order: seq<nat>)
    requires Tags(m, blk, end) && SameButLinks(m, m', order) && AllTiny(blk, order)
    ensures Tags(m', blk, end)
  {
    LinksKeepMost(m, m', blk, end, 0, order);
  }

  /** Also while a block is being merged. */
  lemma LinksKeepOpen(m: seq<Sep>, m': seq<Sep>, blk: Blocks, end: nat, o: nat, order: seq<nat>)
    requires Open(m, blk, end, o) && SameButLinks(m, m', order) && AllTiny(blk, order)
    ensures Open(m', blk, end, o)
  {
    LinksKeepMost(m, m', blk, end, o, order);
    var r := o + blk[o].size;
    assert SepAlike(m[o], m'[o], o in order, o - 1 in order) && SepAlike(m[r], m'[r], r in order, r - 1 in order);
  }

  // ---- the list -----------------------------------------------------------------------------------------------------

  /** A ring depends on its link cells alone. */
  lemma RingFrame(m: seq<Sep>, m': seq<Sep>, first: int, last: int, order: seq<nat>)
    requires Ring(m, first, last, order) && |m'| == |m|
    requires forall b :: b in order ==> b + 1 < |m| && m'[b].own.word == m[b].own.word
                                        && m'[b + 1].before.left == m[b + 1].before.left
    ensures Ring(m', first, last, order)
  {
    forall i | 0 <= i <= |order| ensures Joint(m', first, last, order, i) {
      assert Joint(m, first, last, order, i);
      assert i > 0 ==> order[i - 1] in order;
      assert i < |order| ==> order[i] in order;
    }
  }

  class SmallList {
    const mem: array<Sep>
    var first: int
    var last: int
    ghost var order: seq<nat>

    ghost predicate Valid()
      reads this, mem
    {
      Ring(mem[..], first, last, order)
    }

    constructor (mem: array<Sep>)
      ensures Valid() && this.mem == mem && order == [] && first == last == 0
    {
      this.mem, first, last, order := mem, 0, 0, [];
      new;
      assert Joint(mem[..], first, last, order, 0);
    }

    method SetNext(b: nat, n: int)
      requires b == 0 || b + 1 < mem.Length
      modifies this`first, mem
      ensures mem[..] == WithNext(old(mem[..]), b, n) && first == if b == 0 then n else old(first)
    {
      if b == 0 { first := n; } else { mem[b + 1] := mem[b + 1].(before := mem[b + 1].before.(left := n)); }
    }

    method SetBack(b: nat, p: int)
      requires b == 0 || b + 1 < mem.Length
      modifies this`last, mem
      ensures mem[..] == WithBack(old(mem[..]), b, p) && last == if b == 0 then p else old(last)
    {
      if b == 0 { last := p; } else { mem[b] := mem[b].(own := mem[b].own.(word := Link(p))); }
    }

    lemma Ends()
      requires Valid()
      ensures first == Stop(order, 1) && last == Stop(order, |order|)
    {
      assert Joint(mem[..], first, last, order, 0) && Joint(mem[..], first, last, order, |order|);
    }

    /** `small_insert`: at the end of the list. */
    method Insert(b: nat)
      requires Valid() && 0 < b && b + 1 < mem.Length && b !in order
      modifies this, mem
      ensures Valid() && order == old(order) + [b]
      ensures var l := Stop(old(order), |old(order)|);
              (l == 0 || l + 1 < mem.Length) && mem[..] == Spliced(SmallInsert(old(mem[..]), b, l), l, b, b)
    {
      Ends();
      ghost var m0, first0, last0 := mem[..], first, last;
      mem[b + 1] := mem[b + 1].(before := mem[b + 1].before.(lsize8 := true));
      mem[b] := mem[b].(own := mem[b].own.(size8 := true));
      ghost var m1 := mem[..];
      RingFrame(m0, m1, first, last, order);
      AddPlace(m1, order, b);
      SpliceRing(m1, first, last, order, [b]);
      LastPlace(m1, order);
      var qp: nat := last;
      SetBack(b, qp);
      SetNext(qp, b);
      SetNext(b, 0);
      SetBack(0, b);
      SplicedOne(m0, m1, qp, b);
      order := order + [b];
    }

    /** `small_merge`: the blocks of another list are put at the end. */
    method Merge(other: SmallList)
      requires Valid() && other.Valid() && other != this && other.mem == mem && Places(mem[..], order + other.order)
      modifies this, mem
      ensures Valid() && order == old(order) + other.order
      ensures var a, b := old(order), other.order;
              mem[..] == if b == [] then old(mem[..]) else
                           Spliced(old(mem[..]), Stop(a, |a|), b[0], b[|b| - 1])
    {
      Ends();
      other.Ends();
      if other.first == 0 {
        assert order + other.order == order;
        return;
      }
      ghost var m := mem[..];
      RingChain(m, other.first, other.last, other.order);
      SpliceRing(m, first, last, order, other.order);
      LastPlace(m, order);
      LastPlace(m, other.order);
      var q1p: nat, q2n: nat, q2p: nat := last, other.first, other.last;
      SetNext(q1p, q2n);
      SetBack(q2n, q1p);
      SetBack(0, q2p);
      SetNext(q2p, 0);
      order := order + other.order;
    }

    /** `small_remove`; `b` is block `i` of the list. */
    method Remove(b: nat, ghost i: nat)
      requires Valid() && i < |order| && b == order[i]
      modifies this, mem
      ensures Valid() && order == Dropped(old(order), i)
      ensures var l, r := Stop(old(order), i), Stop(old(order), i + 2);
              mem[..] == UnsetSize8(WithBack(WithNext(old(mem[..]), l, r), r, l), b)
    {
      DropRing(mem[..], first, last, order, i);
      assert Joint(mem[..], first, last, order, i) && Joint(mem[..], first, last, order, i + 1);
      var qn: nat, qp: nat := mem[b + 1].before.left, mem[b].own.word.prev;
      SetNext(qp, qn);
      SetBack(qn, qp);
      ghost var m := mem[..];
      mem[b + 1] := mem[b + 1].(before := mem[b + 1].before.(lsize8 := false));
      mem[b] := mem[b].(own := mem[b].own.(size8 := false, word := Plain(OffsetBits(mem[b + 1].own.word) - 1, 1)));
      assert mem[..] == UnsetSize8(m, b);
      DroppedGone(order, i);
      order := Dropped(order, i);
      RingFrame(m, mem[..], first, last, order);
    }

    /** `small_del_first`. */
    method DelFirst() returns (b: Option<nat>)
      requires Valid()
      modifies this, mem
      ensures Valid()
      ensures b.None? ==> order == old(order) == [] && mem[..] == old(mem[..])
      ensures b.Some? ==> old(order) != [] && b.value == old(order)[0] && order == old(order)[1..]
      ensures b.Some? ==>
                var r := Stop(old(order), 2);
                (r == 0 || r + 1 < mem.Length) && mem[..] == UnsetSize8(WithBack(old(mem[..]), r, 0), b.value)
    {
      Ends();
      if first == 0 { return None; }
      var f: nat := first;
      Remove(f, 0);
      b := Some(f);
    }
  }

  lemma DroppedGone(order: seq<nat>, i: nat)
    requires i < |order| && forall j, k :: 0 <= j < k < |order| ==> order[j] != order[k]
    ensures forall b :: b in Dropped(order, i) <==> b in order && b != order[i]
  {
    var o := Dropped(order, i);
    forall b | b in order && b != order[i] ensures b in o {
      var j :| 0 <= j < |order| && order[j] == b;
      assert o[if j < i then j else j - 1] == b;
    }
  }

  lemma AddPlace(m: seq<Sep>, order: seq<nat>, b: nat)
    requires Places(m, order) && 0 < b && b + 1 < |m| && b !in order
    ensures Places(m, order + [b]) && Chain(m, [b])
  {
    forall i | 0 <= i < |order| ensures order[i] != b { assert order[i] in order; }
  }

  lemma LastPlace(m: seq<Sep>, order: seq<nat>)
    requires Places(m, order)
    ensures Stop(order, |order|) == 0 || Stop(order, |order|) + 1 < |m|
    ensures order != [] ==> order[0] == Stop(order, 1) && order[|order| - 1] == Stop(order, |order|)
  {
  }

  /** The order of the first two writes does not matter, and the flags come first. */
  lemma SplicedOne(m0: seq<Sep>, m1: seq<Sep>, l: nat, b: nat)
    requires 0 < b && b + 1 < |m0| && (l == 0 || l + 1 < |m0|) && l != b && |m1| == |m0|
    requires m1 == m0[b + 1 := m0[b + 1].(before := m0[b + 1].before.(lsize8 := true))]
                     [b := m0[b].(own := m0[b].own.(size8 := true))]
    ensures WithNext(WithNext(WithBack(m1, b, l), l, b), b, 0) == Spliced(m1, l, b, b)
    ensures Spliced(m1, l, b, b) == Spliced(SmallInsert(m0, b, l), l, b, b)
  {
    assert WithNext(WithBack(m1, b, l), l, b) == WithBack(WithNext(m1, l, b), b, l);
  }

  // ---- freeing and taking a small block, links included -------------------------------------------------------------

  lemma SplicedAlike(m: seq<Sep>, l: nat, f: nat, e: nat, order: seq<nat>)
    requires (l == 0 || (l + 1 < |m| && l in order)) && 0 < f && f + 1 < |m| && f in order && m[f].own.word.Link?
    requires 0 < e && e + 1 < |m| && e in order
    ensures SameButLinks(m, Spliced(m, l, f, e), order)
  {
  }

  lemma UnlinkedAlike(m: seq<Sep>, l: nat, r: nat, order: seq<nat>)
    requires (l == 0 || (l + 1 < |m| && l in order)) && (r == 0 || (r + 1 < |m| && r in order && m[r].own.word.Link?))
    ensures SameButLinks(m, WithBack(WithNext(m, l, r), r, l), order)
  {
  }

  /** A block of one unit is freed: with all links in place every separator is true. */
  lemma FreedTags(m: seq<Sep>, blk: Blocks, end: nat, s: nat, order: seq<nat>)
    requires Open(m, blk, end, s) && Lonely(blk, s) && blk[s].size == 1 && Places(m, order) && AllTiny(blk, order)
    ensures var l := Stop(order, |order|);
            && s + 1 < |m| && (l == 0 || l + 1 < |m|)
            && Tags(Spliced(SmallInsert(SetUnused(m, s, s + 1), s, l), l, s, s), blk[s := Block(1, true)], end)
  {
    var l, blk' := Stop(order, |order|), blk[s := Block(1, true)];
    LastPlace(m, order);
    CloseTags(m, blk, end, s, l);
    var m1 := CloseSeps(m, s, 1, l);
    assert l != 0 ==> l in order;
    SplicedAlike(m1, l, s, s, order + [s]);
    LinksKeepTags(m1, Spliced(m1, l, s, s), blk', end, order + [s]);
  }

  /** A listed block is taken: the list is closed behind it and its own separator is rebuilt. */
  lemma TakenTags(m: seq<Sep>, blk: Blocks, end: nat, first: int, last: int, order: seq<nat>, i: nat)
    requires Tags(m, blk, end) && Ring(m, first, last, order) && AllTiny(blk, order) && i < |order|
    ensures var l, r, b := Stop(order, i), Stop(order, i + 2), order[i];
            && b in blk && (l == 0 || l + 1 < |m|) && (r == 0 || r + 1 < |m|)
            && Tags(SetUsed(UnsetSize8(WithBack(WithNext(m, l, r), r, l), b), b, 1), blk[b := Block(1, false)], end)
  {
    var l, r, b := Stop(order, i), Stop(order, i + 2), order[i];
    assert b in order;
    var m1 := WithBack(WithNext(m, l, r), r, l);
    UnlinkAlike(m, first, last, order, i);
    LinksKeepTags(m, m1, blk, end, order);
    TakeTags(m1, blk, end, b);
  }

  lemma AlikeSelf(m: seq<Sep>, order: seq<nat>)
    ensures SameButLinks(m, m, order)
  {
  }

  /** Unlinking a listed block changes nothing but links. */
  lemma UnlinkAlike(m: seq<Sep>, first: int, last: int, order: seq<nat>, i: nat)
    requires Ring(m, first, last, order) && i < |order|
    ensures var l, r := Stop(order, i), Stop(order, i + 2);
            && (l == 0 || l + 1 < |m|) && (r == 0 || r + 1 < |m|)
            && SameButLinks(m, WithBack(WithNext(m, l, r), r, l), order)
  {
    var l, r := Stop(order, i), Stop(order, i + 2);
    assert (l != 0 ==> l in order) && (r != 0 ==> r in order);
    assert Joint(m, first, last, order, i + 1);
    UnlinkedAlike(m, l, r, order);
  }
}
