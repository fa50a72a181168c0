/** A region of the allocator with its free lists: `split_node`, `merge_node`, `merge_node_aux`,
    `node_insert` and the taking of free blocks (others/tmi/src/ll_alloc.c). */
module Region {
  import opened Options
  import opened BoundaryTags
  import opened TagSteps
  import opened SmallRing

  const QS_UNITS: nat := 63     // QS_MAX / 16

  predicate FreeBlock(blk: Blocks, s: nat, lo: nat, hi: nat) { s in blk && blk[s].unused && lo <= blk[s].size <= hi }

  /** Which list holds a free block is decided by its size. */
  ghost predicate Filed(blk: Blocks, end: nat, small: set<nat>, queued: set<nat>, tree: set<nat>) {
    && (forall s :: s in small <==> FreeBlock(blk, s, 1, 1))
    && (forall s :: s in queued <==> FreeBlock(blk, s, 2, QS_UNITS))
    && (forall s :: s in tree <==> FreeBlock(blk, s, QS_UNITS + 1, end))
  }

  ghost predicate FreeAt(blk: Blocks, x: nat) { exists t :: Holds(blk, t, x) && blk[t].unused }

  /** Free, or in the block that is being freed. */
  ghost predicate Avail(blk: Blocks, o: nat, x: nat) { FreeAt(blk, x) || Holds(blk, o, x) }

  predicate InUse(blk: Blocks, t: nat) { t in blk && !blk[t].unused }

  /** The blocks in use, apart from the one being freed, are the same. */
  ghost predicate SameUsed(blk: Blocks, o: nat, blk': Blocks, o': nat) {
    forall t :: (InUse(blk, t) && t != o <==> InUse(blk', t) && t != o')
      && (InUse(blk, t) && t != o ==> blk[t] == blk'[t])
  }

  /** What freeing block `s` means: exactly its units become free, all other blocks in use stay. */
  ghost predicate Freed(blk: Blocks, s: nat, blk': Blocks)
    requires s in blk
  {
    && (forall x :: FreeAt(blk', x) <==> Avail(blk, s, x))
    && (forall t :: InUse(blk', t) <==> InUse(blk, t) && t != s)
    && (forall t :: InUse(blk', t) ==> blk'[t] == blk[t])
  }

  lemma JoinAvail(blk: Blocks, s: nat, t: nat, o: nat, x: nat)
    requires s in blk && t in blk && t == s + blk[s].size && (o == s || o == t) && (o == s ==> blk[t].unused)
    requires o == t ==> blk[s].unused
    ensures Avail(Joined(blk, s, t), s, x) <==> Avail(blk, o, x)
  {
    var blk' := Joined(blk, s, t);
    if FreeAt(blk', x) {
      var y: nat :| Holds(blk', y, x) && blk'[y].unused;
      assert Holds(blk, y, x) && blk[y].unused;
    }
    if Holds(blk', s, x) { assert Holds(blk, s, x) || Holds(blk, t, x); }
    if FreeAt(blk, x) {
      var y: nat :| Holds(blk, y, x) && blk[y].unused;
      if y != s && y != t { assert Holds(blk', y, x) && blk'[y].unused; } else { assert Holds(blk', s, x); }
    }
    if Holds(blk, o, x) { assert Holds(blk', s, x); }
  }

  lemma CloseAvail(blk: Blocks, s: nat, x: nat)
    requires s in blk && !blk[s].unused
    ensures FreeAt(blk[s := Block(blk[s].size, true)], x) <==> Avail(blk, s, x)
  {
    var blk' := blk[s := Block(blk[s].size, true)];
    if FreeAt(blk', x) {
      var y: nat :| Holds(blk', y, x) && blk'[y].unused;
      assert Holds(blk, y, x);
    }
    if FreeAt(blk, x) {
      var y: nat :| Holds(blk, y, x) && blk[y].unused;
      assert Holds(blk', y, x) && blk'[y].unused;
    }
    if Holds(blk, s, x) { assert Holds(blk', s, x) && blk'[s].unused; }
  }

  lemma JoinUsed(blk: Blocks, s: nat, t: nat, o: nat)
    requires s in blk && t in blk && t == s + blk[s].size && blk[s].size > 0 && (o == s || o == t)
    requires !blk[o].unused && blk[if o == s then t else s].unused
    ensures SameUsed(blk, o, Joined(blk, s, t), s)
  {}

  function Less(listed: set<nat>, b: nat, gone: bool): set<nat> { if gone then listed - {b} else listed }

  /** Free block `f` leaves its list and becomes part of the block being freed. */
  lemma JoinFiled(blk: Blocks, end: nat, small: set<nat>, queued: set<nat>, tree: set<nat>, s: nat, t: nat, f: nat)
    requires Filed(blk, end, small, queued, tree) && s in blk && t in blk && t == s + blk[s].size && blk[s].size > 0
    requires (f == s || f == t) && blk[f].unused && !blk[if f == s then t else s].unused
    ensures Filed(Joined(blk, s, t), end, Less(small, f, blk[f].size == 1),
                  Less(queued, f, 1 < blk[f].size <= QS_UNITS),
                  Less(tree, f, blk[f].size > QS_UNITS))
  {
    var blk' := Joined(blk, s, t);
    forall x: nat, lo: nat, hi: nat {:trigger FreeBlock(blk', x, lo, hi)}
      ensures FreeBlock(blk', x, lo, hi) <==> FreeBlock(blk, x, lo, hi) && x != f
    {}
  }

  function More(listed: set<nat>, b: nat, added: bool): set<nat> { if added then listed + {b} else listed }

  /** Block `s` is marked free, and filed by its size. */
  lemma CloseFiled(blk: Blocks, end: nat, small: set<nat>, queued: set<nat>, tree: set<nat>, s: nat)
    requires Filed(blk, end, small, queued, tree) && InUse(blk, s) && 1 <= blk[s].size <= end
    ensures Filed(blk[s := Block(blk[s].size, true)], end, More(small, s, blk[s].size == 1),
                  More(queued, s, 1 < blk[s].size <= QS_UNITS), More(tree, s, blk[s].size > QS_UNITS))
  {
    var blk' := blk[s := Block(blk[s].size, true)];
    forall x: nat, lo: nat, hi: nat {:trigger FreeBlock(blk', x, lo, hi)}
      ensures FreeBlock(blk', x, lo, hi) <==> FreeBlock(blk, x, lo, hi) || (x == s && lo <= blk[s].size <= hi)
    {}
  }

  lemma TakeFiled(blk: Blocks, end: nat, small: set<nat>, queued: set<nat>, tree: set<nat>, s: nat)
    requires Filed(blk, end, small, queued, tree) && s in blk && blk[s].unused
    ensures Filed(blk[s := Block(blk[s].size, false)], end, Less(small, s, blk[s].size == 1),
                  Less(queued, s, 1 < blk[s].size <= QS_UNITS), Less(tree, s, blk[s].size > QS_UNITS))
  {
    var blk' := blk[s := Block(blk[s].size, false)];
    forall x: nat, lo: nat, hi: nat {:trigger FreeBlock(blk', x, lo, hi)}
      ensures FreeBlock(blk', x, lo, hi) <==> FreeBlock(blk, x, lo, hi) && x != s
    {}
  }

  lemma SplitFiled(blk: Blocks, end: nat, small: set<nat>, queued: set<nat>, tree: set<nat>, s: nat, k: nat)
    requires Filed(blk, end, small, queued, tree) && InUse(blk, s) && k < blk[s].size && s + k !in blk
    ensures Filed(SplitBlocks(blk, s, k), end, small, queued, tree)
  {
    var blk' := SplitBlocks(blk, s, k);
    forall x: nat, lo: nat, hi: nat {:trigger FreeBlock(blk', x, lo, hi)}
      ensures FreeBlock(blk', x, lo, hi) <==> FreeBlock(blk, x, lo, hi)
    {}
  }

  lemma JoinMeans(blk: Blocks, s: nat, t: nat, o: nat)
    requires s in blk && t in blk && t == s + blk[s].size && blk[s].size > 0 && (o == s || o == t)
    requires !blk[o].unused && blk[if o == s then t else s].unused
    ensures SameUsed(blk, o, Joined(blk, s, t), s)
    ensures forall x :: Avail(Joined(blk, s, t), s, x) <==> Avail(blk, o, x)
  {
    JoinUsed(blk, s, t, o);
    forall x ensures Avail(Joined(blk, s, t), s, x) <==> Avail(blk, o, x) { JoinAvail(blk, s, t, o, x); }
  }

  lemma JoinLonely(blk: Blocks, end: nat, p: nat, s: nat)
    requires Tiled(blk, end) && (forall x {:trigger Apart(blk, x)} :: x in blk ==> Apart(blk, x))
    requires p in blk && s in blk && p + blk[p].size == s && blk[p].unused
    requires s + blk[s].size in blk ==> !blk[s + blk[s].size].unused
    ensures Lonely(Joined(blk, p, s), p)
  {
    var blk' := Joined(blk, p, s);
    assert Fits(blk, p, end);
    forall q | q in blk' && q + blk'[q].size == p ensures !blk'[q].unused { assert q != p && Apart(blk, q); }
  }

  lemma CloseFreed(blk0: Blocks, s: nat, blk: Blocks, o: nat)
    requires s in blk0 && o in blk && !blk[o].unused && !blk0[s].unused
    requires SameUsed(blk0, s, blk, o) && forall x :: Avail(blk, o, x) <==> Avail(blk0, s, x)
    ensures Freed(blk0, s, blk[o := Block(blk[o].size, true)])
  {
    var blk' := blk[o := Block(blk[o].size, true)];
    forall x ensures FreeAt(blk', x) <==> Avail(blk0, s, x) { CloseAvail(blk, o, x); }
    forall t ensures InUse(blk', t) <==> InUse(blk0, t) && t != s {
      assert InUse(blk, t) && t != o <==> InUse(blk', t);
    }
  }

  /** An open block without free neighbours fills the region exactly if nothing else is in use. */
  lemma FillsRegion(blk: Blocks, end: nat, o: nat)
    requires Tiled(blk, end) && InUse(blk, o) && Lonely(blk, o)
    ensures o == 1 && o + blk[o].size == end <==> forall t :: InUse(blk, t) ==> t == o
  {
    assert Fits(blk, o, end);
    if o == 1 && o + blk[o].size == end {
      forall t | InUse(blk, t) ensures t == o { assert Fits(blk, t, end) && Alone(blk, o, t); }
    }
    if forall t :: InUse(blk, t) ==> t == o {
      if o + blk[o].size in blk { assert InUse(blk, o + blk[o].size); }
      if o != 1 {
        var p := LeftOf(blk, end, o);
        assert Fits(blk, p, end) && InUse(blk, p);
      }
    }
  }

  // ---- the ring of small blocks beside the other operations ---------------------------------------------------

  /** The ring lists exactly the free blocks of one unit. */
  ghost predicate Lists(order: seq<nat>, small: set<nat>) { forall b :: b in order <==> b in small }

  lemma ListedTiny(blk: Blocks, end: nat, small: set<nat>, queued: set<nat>, tree: set<nat>, order: seq<nat>)
    requires Filed(blk, end, small, queued, tree) && Lists(order, small)
    ensures AllTiny(blk, order)
  {
    forall b | b in order ensures b in blk && Tiny(blk[b]) { assert FreeBlock(blk, b, 1, 1); }
  }

  /** Writing the word of a block that is not listed leaves the ring as it is. */
  lemma WordRing(m: seq<Sep>, first: int, last: int, order: seq<nat>, b: nat, size: nat)
    requires Ring(m, first, last, order) && b < |m| && b !in order
    ensures Ring(SetSize(m, b, size), first, last, order)
  {
    ListedInside(m, order);
    RingFrame(m, SetSize(m, b, size), first, last, order);
  }

  lemma ListedInside(m: seq<Sep>, order: seq<nat>)
    requires Places(m, order)
    ensures forall b :: b in order ==> 1 <= b && b + 1 < |m|
  {
  }

  lemma SplitRing(m: seq<Sep>, first: int, last: int, order: seq<nat>, s: nat, size: nat, k: nat)
    requires Ring(m, first, last, order) && 0 < k < size && s + size < |m| && s !in order && s + k !in order
    ensures Ring(SplitSeps(m, s, size, k), first, last, order)
  {
    ListedInside(m, order);
    RingFrame(m, SplitSeps(m, s, size, k), first, last, order);
  }

  lemma UsedRing(m: seq<Sep>, first: int, last: int, order: seq<nat>, s: nat, size: nat)
    requires Ring(m, first, last, order) && s + size < |m|
    ensures Ring(SetUsed(m, s, size), first, last, order)
  {
    ListedInside(m, order);
    RingFrame(m, SetUsed(m, s, size), first, last, order);
  }

  lemma UnusedRing(m: seq<Sep>, first: int, last: int, order: seq<nat>, s: nat, br: nat)
    requires Ring(m, first, last, order) && s < |m| && 0 < br < |m| && br - 1 !in order
    ensures Ring(SetUnused(m, s, br), first, last, order)
  {
    ListedInside(m, order);
    RingFrame(m, SetUnused(m, s, br), first, last, order);
  }

  /** No listed block ends where a block in use does. */
  lemma BehindUsed(blk: Blocks, end: nat, order: seq<nat>, s: nat)
    requires Tiled(blk, end) && AllTiny(blk, order) && InUse(blk, s)
    ensures Fits(blk, s, end) && s !in order && s + blk[s].size - 1 !in order
  {
    assert Fits(blk, s, end);
    var b := s + blk[s].size - 1;
    if b in blk { assert InTurn(blk, s, b) && InTurn(blk, b, s); }
  }

  /** A block is marked free and filed: all separators are true. */
  lemma ClosedTags(m: seq<Sep>, blk: Blocks, end: nat, s: nat, order: seq<nat>)
    requires Open(m, blk, end, s) && Lonely(blk, s) && Places(m, order) && AllTiny(blk, order)
    ensures var l, m1 := Stop(order, |order|), SetUnused(m, s, s + blk[s].size);
            && s + 1 < |m| && (l == 0 || l + 1 < |m|)
            && Tags(if blk[s].size == 1 then Spliced(SmallInsert(m1, s, l), l, s, s) else m1,
                    blk[s := Block(blk[s].size, true)], end)
  {
    LastPlace(m, order);
    CloseTags(m, blk, end, s, 0);
    if blk[s].size == 1 { FreedTags(m, blk, end, s, order); }
  }

  /** The same with the lists beside it. */
  lemma CloseAll(m: seq<Sep>, blk: Blocks, end: nat, s: nat, small: set<nat>, queued: set<nat>, tree: set<nat>,
                 first: int, last: int, order: seq<nat>)
    requires Open(m, blk, end, s) && Lonely(blk, s) && Filed(blk, end, small, queued, tree)
    requires Ring(m, first, last, order) && Lists(order, small)
    ensures var l, size, m1 := Stop(order, |order|), blk[s].size, SetUnused(m, s, s + blk[s].size);
            && m[s].own.word == Plain(s, size) && 1 <= s && 1 <= size && s + size < |m| && (l == 0 || l + 1 < |m|)
            && s !in order && Ring(m1, first, last, order)
            && Tags(if size == 1 then Spliced(SmallInsert(m1, s, l), l, s, s) else m1,
                    blk[s := Block(size, true)], end)
            && Filed(blk[s := Block(size, true)], end, More(small, s, size == 1),
                     More(queued, s, 1 < size <= QS_UNITS), More(tree, s, size > QS_UNITS))
  {
    ListedTiny(blk, end, small, queued, tree, order);
    BehindUsed(blk, end, order, s);
    CloseFiled(blk, end, small, queued, tree, s);
    ClosedTags(m, blk, end, s, order);
    UnusedRing(m, first, last, order, s, s + blk[s].size);
  }

  /** What the separators and lists say of a free block `f` beside the block `o`. */
  ghost predicate Says(m: seq<Sep>, blk: Blocks, o: nat, f: nat, order: seq<nat>) {
    && f in blk && o in blk && f + 1 < |m| && o < |m|
    && m[f].own.size8 == (blk[f].size == 1) && (f in order <==> blk[f].size == 1)
    && (blk[f].size != 1 ==> m[f].own.word == Plain(f, blk[f].size))
    && m[o].own.word == Plain(o, blk[o].size) && o !in order
  }

  lemma FreeSays(m: seq<Sep>, blk: Blocks, end: nat, o: nat, f: nat, small: set<nat>, queued: set<nat>,
                 tree: set<nat>, order: seq<nat>)
    requires Open(m, blk, end, o) && f in blk && blk[f].unused && Filed(blk, end, small, queued, tree)
    requires Lists(order, small)
    ensures Says(m, blk, o, f, order) && AllTiny(blk, order) && blk[f].size > 0 && blk[o].size > 0
  {
    assert Fits(blk, f, end) && Tagged(m, blk, f) && Fits(blk, o, end);
    assert f in order <==> FreeBlock(blk, f, 1, 1);
    ListedTiny(blk, end, small, queued, tree, order);
  }

  lemma RightSays(m: seq<Sep>, blk: Blocks, end: nat, s: nat, t: nat, small: set<nat>, queued: set<nat>,
                  tree: set<nat>, order: seq<nat>)
    requires Tags(m, blk, end) && InUse(blk, s) && t in blk && blk[t].unused && Filed(blk, end, small, queued, tree)
    requires Lists(order, small)
    ensures Says(m, blk, s, t, order) && AllTiny(blk, order) && blk[s].size > 0
  {
    TagsOpen(m, blk, end, s);
    FreeSays(m, blk, end, s, t, small, queued, tree, order);
  }

  /** The memory after free block `f` has left the list and been added to `to`. */
  function Swallowed(m: seq<Sep>, f: nat, size: nat, to: nat, total: nat): seq<Sep>
    requires f + 1 < |m| && to < |m|
  {
    SetSize(if size == 1 then UnsetSize8(m, f) else m, to, total)
  }

  /** Absorbing the right neighbour, with the links of the ring rewritten from `m0` to `m` on the way. */
  lemma RightAll(m0: seq<Sep>, m: seq<Sep>, blk: Blocks, end: nat, s: nat, t: nat, order: seq<nat>)
    requires Tags(m0, blk, end) && SameButLinks(m0, m, order) && AllTiny(blk, order)
    requires InUse(blk, s) && t in blk && t == s + blk[s].size && blk[t].unused && t + 1 < |m|
    ensures Open(Swallowed(m, t, blk[t].size, s, blk[s].size + blk[t].size), Joined(blk, s, t), end, s)
  {
    LinksKeepTags(m0, m, blk, end, order);
    RightTags(m, blk, end, s, t);
  }

  lemma LeftAll(m0: seq<Sep>, m: seq<Sep>, blk: Blocks, end: nat, p: nat, s: nat, order: seq<nat>)
    requires Open(m0, blk, end, s) && SameButLinks(m0, m, order) && AllTiny(blk, order)
    requires p in blk && p + blk[p].size == s && blk[p].unused && p + 1 < |m|
    ensures Open(Swallowed(m, p, blk[p].size, p, blk[p].size + blk[s].size), Joined(blk, p, s), end, p)
  {
    LinksKeepOpen(m0, m, blk, end, s, order);
    LeftTags(m, blk, end, p, s);
  }

  class Region {
    const mem: array<Sep>
    /** The list of blocks of one unit, kept in the separators. */
    const ring: SmallList
    ghost var blk: Blocks
    ghost var small: set<nat>
    var queued: set<nat>
    var tree: set<nat>

    ghost function End(): int { mem.Length - 1 }

    /** The free lists: the ring inside the memory, and the others as sets. */
    ghost predicate Listed()
      reads this, mem, ring
    {
      && mem.Length >= 3 && ring.mem == mem && ring.Valid() && Lists(ring.order, small)
      && Filed(blk, End(), small, queued, tree)
    }

    ghost predicate Valid()
      reads this, mem, ring
    {
      Listed() && Tags(mem[..], blk, End())
    }

    /** Block `o` is being freed: it counts as in use and its free neighbours are being absorbed. */
    ghost predicate Half(o: nat)
      reads this, mem, ring
    {
      Listed() && Open(mem[..], blk, End(), o)
    }

    /** `block_alloc_aux` up to the split: one block between the two edge separators. */
    constructor (units: nat)
      requires units >= 3
      ensures Valid() && blk == map[1 := Block(units - 2, false)] && fresh(mem) && fresh(ring)
    {
      var m := new Sep[units](_ => Sep(Own(Plain(0, 0), false, false), Before(0, false, false)));
      mem := m;
      ring := new SmallList(m);
      small, queued, tree := {}, {}, {};
      blk := map[1 := Block(units - 2, false)];
      new;
      mem[1] := mem[1].(own := Own(Plain(1, units - 2), false, false));
      mem[units - 1] := mem[units - 1].(own := Own(Plain(units - 1, 0), false, false));
      assert Fits(blk, 1, End()) && Tagged(mem[..], blk, 1) && Apart(blk, 1);
      assert Joint(mem[..], ring.first, ring.last, ring.order, 0);
    }

    method Put(i: nat, v: Sep)
      requires i < mem.Length
      modifies mem
      ensures mem[..] == old(mem[..])[i := v]
    {
      mem[i] := v;
    }

    method SetBlockSize(b: nat, size: nat)
      requires b < mem.Length
      modifies mem
      ensures mem[..] == SetSize(old(mem[..]), b, size)
    {
      Put(b, mem[b].(own := mem[b].own.(word := Plain(OffsetBits(mem[b].own.word), size))));
    }

    method MarkUsed(b: nat, size: nat)
      requires b + size < mem.Length
      modifies mem
      ensures mem[..] == SetUsed(old(mem[..]), b, size)
    {
      var br := b + size;
      Put(br, mem[br].(before := mem[br].before.(lunused := false)));
      Put(b, mem[b].(own := mem[b].own.(unused := false)));
    }

    method MarkUnused(b: nat, br: nat)
      requires b < mem.Length && br < mem.Length
      modifies mem
      ensures mem[..] == SetUnused(old(mem[..]), b, br)
    {
      Put(br, mem[br].(before := mem[br].before.(lunused := true, left := b)));
      Put(b, mem[b].(own := mem[b].own.(unused := true)));
    }

    /** `split_node`: a remainder worth having becomes a block of its own, still in use, and goes to the
        fast lists. */
    method Split(s: nat, k: nat) returns (rest: Option<nat>)
      requires Valid() && s in blk && !blk[s].unused && 0 < k <= blk[s].size
      modifies this`blk, mem
      ensures Valid()
      ensures rest.Some? <==> (old(blk)[s].size - k) * 4 >= k
      ensures rest.Some? ==> rest.value == s + k && k < old(blk)[s].size && blk == SplitBlocks(old(blk), s, k)
      ensures rest.None? ==> blk == old(blk)
    {
      assert Fits(blk, s, End()) && Tagged(mem[..], blk, s);
      var size := mem[s].own.word.size;
      if (size - k) * 4 < k { return None; }
      SplitTags(mem[..], blk, End(), s, k);
      SplitNew(blk, End(), s, k);
      ListedTiny(blk, End(), small, queued, tree, ring.order);
      SplitFiled(blk, End(), small, queued, tree, s, k);
      SplitRing(mem[..], ring.first, ring.last, ring.order, s, size, k);
      var bm := s + k;
      SetBlockSize(s, k);
      Put(bm, Sep(Own(Plain(OffsetBits(mem[s].own.word) + (bm - s), size - k), false, false),
                  Before(mem[bm].before.left, false, false)));
      blk := SplitBlocks(blk, s, k);
      rest := Some(bm);
    }

    /** The other lists of a free block. */
    method Unlist(b: nat, size: nat)
      modifies this`queued, this`tree
      ensures queued == Less(old(queued), b, 1 < size <= QS_UNITS) && tree == Less(old(tree), b, size > QS_UNITS)
    {
      if size > QS_UNITS { tree := tree - {b}; }
      else if size > 1 { queued := queued - {b}; }
    }

    /** A free block leaves its list: `small_remove`, `dlist_del` or `btree_node_del`. Taking it off the ring rewrites
        the links of its neighbours there, which gives the memory `m`, before its own separator is rebuilt. */
    method Detach(b: nat, ghost size: nat) returns (bsize: nat, ghost m: seq<Sep>)
      requires ring.mem == mem && ring.Valid() && Lists(ring.order, small)
      requires b + 1 < mem.Length && mem[b].own.size8 == (size == 1) && (b in ring.order <==> size == 1)
      requires size != 1 ==> mem[b].own.word.Plain? && mem[b].own.word.size == size
      modifies this`small, this`queued, this`tree, ring, mem
      ensures bsize == size && SameButLinks(old(mem[..]), m, old(ring.order))
      ensures mem[..] == if size == 1 then UnsetSize8(m, b) else m
      ensures ring.Valid() && Lists(ring.order, small) && b !in ring.order
      ensures small == Less(old(small), b, size == 1) && queued == Less(old(queued), b, 1 < size <= QS_UNITS)
      ensures tree == Less(old(tree), b, size > QS_UNITS)
    {
      m := mem[..];
      if mem[b].own.size8 {
        ghost var i :| 0 <= i < |ring.order| && ring.order[i] == b;
        m := DetachRing(b, i);
        bsize := 1;
      } else {
        bsize := mem[b].own.word.size;
        AlikeSelf(m, ring.order);
      }
      Unlist(b, bsize);
    }

    method DetachRing(b: nat, ghost i: nat) returns (ghost m: seq<Sep>)
      requires ring.mem == mem && ring.Valid() && Lists(ring.order, small) && i < |ring.order| && b == ring.order[i]
      requires b + 1 < mem.Length
      modifies this`small, ring, mem
      ensures SameButLinks(old(mem[..]), m, old(ring.order)) && mem[..] == UnsetSize8(m, b)
      ensures ring.Valid() && small == old(small) - {b} && Lists(ring.order, small) && b !in ring.order
    {
      ghost var l, r := Stop(ring.order, i), Stop(ring.order, i + 2);
      UnlinkAlike(mem[..], ring.first, ring.last, ring.order, i);
      m := WithBack(WithNext(mem[..], l, r), r, l);
      DroppedGone(ring.order, i);
      ring.Remove(b, i);
      small := small - {b};
    }

    /** A free block is taken for use: `small_del_first`, a list or the tree, then `set_used`. */
    method Take(s: nat)
      requires Valid() && s in blk && blk[s].unused
      modifies this, ring, mem
      ensures Valid() && blk == old(blk)[s := Block(old(blk)[s].size, false)]
    {
      BehindFree(mem[..], blk, End(), s);
      ListedTiny(blk, End(), small, queued, tree, ring.order);
      TakeFiled(blk, End(), small, queued, tree, s);
      ghost var m0, order := mem[..], ring.order;
      assert s in ring.order <==> FreeBlock(blk, s, 1, 1);
      var size, m := Detach(s, blk[s].size);
      LinksKeepTags(m0, m, blk, End(), order);
      TakeTags(m, blk, End(), s);
      UsedRing(mem[..], ring.first, ring.last, ring.order, s, size);
      MarkUsed(s, size);
      blk := blk[s := Block(blk[s].size, false)];
    }

    /** Free block `f`, one of the neighbours `l` and `r`, leaves its list; `l` gets the size of both. */
    method Swallow(l: nat, r: nat, f: nat) returns (ghost m: seq<Sep>)
      requires Listed() && l in blk && r in blk && r == l + blk[l].size && blk[l].size > 0 && (f == l || f == r)
      requires var o := if f == l then r else l;
               blk[f].unused && !blk[o].unused && Says(mem[..], blk, o, f, ring.order)
      modifies this, ring, mem
      ensures SameButLinks(old(mem[..]), m, old(ring.order)) && f + 1 < |m| && l < |m|
      ensures mem[..] == Swallowed(m, f, old(blk)[f].size, l, old(blk)[l].size + old(blk)[r].size)
      ensures Listed() && blk == Joined(old(blk), l, r)
    {
      JoinFiled(blk, End(), small, queued, tree, l, r, f);
      var o := if f == l then r else l;
      var osize: nat := mem[o].own.word.size;
      var fsize;
      fsize, m := Detach(f, blk[f].size);
      WordRing(mem[..], ring.first, ring.last, ring.order, l, osize + fsize);
      SetBlockSize(l, osize + fsize);
      blk := Joined(blk, l, r);
    }

    /** The free right neighbour `t` becomes part of `s`. */
    method JoinRight(s: nat, t: nat)
      requires Valid() && InUse(blk, s) && t in blk && t == s + blk[s].size && blk[t].unused
      modifies this, ring, mem
      ensures Half(s) && blk == Joined(old(blk), s, t)
    {
      ghost var m0, blk0, order := mem[..], blk, ring.order;
      RightSays(m0, blk, End(), s, t, small, queued, tree, order);
      ghost var m := Swallow(s, t, t);
      RightAll(m0, m, blk0, End(), s, t, order);
    }

    /** First part of `merge_node`: a free right neighbour is absorbed. */
    method MergeRight(s: nat)
      requires Valid() && InUse(blk, s)
      modifies this, ring, mem
      ensures Half(s) && (s + blk[s].size in blk ==> !blk[s + blk[s].size].unused)
      ensures SameUsed(old(blk), s, blk, s) && forall x :: Avail(blk, s, x) <==> Avail(old(blk), s, x)
    {
      TagsOpen(mem[..], blk, End(), s);
      var t := s + mem[s].own.word.size;
      if t in blk { assert Fits(blk, t, End()) && Tagged(mem[..], blk, t) && Apart(blk, t); }
      if mem[t].own.unused {
        JoinMeans(blk, s, t, s);
        JoinRight(s, t);
      }
    }

    /** The free left neighbour `p` absorbs `s`. */
    method JoinLeft(p: nat, s: nat)
      requires Half(s) && p in blk && p + blk[p].size == s && blk[p].unused
      modifies this, ring, mem
      ensures Half(p) && blk == Joined(old(blk), p, s)
    {
      ghost var m0, blk0, order := mem[..], blk, ring.order;
      FreeSays(m0, blk, End(), s, p, small, queued, tree, order);
      ghost var m := Swallow(p, s, p);
      LeftAll(m0, m, blk0, End(), p, s, order);
    }

    /** Second part: a free left neighbour absorbs the block. */
    method MergeLeft(s: nat) returns (bl: nat)
      requires Half(s) && (s + blk[s].size in blk ==> !blk[s + blk[s].size].unused)
      modifies this, ring, mem
      ensures Half(bl) && Lonely(blk, bl)
      ensures SameUsed(old(blk), s, blk, bl) && forall x :: Avail(blk, bl, x) <==> Avail(old(blk), s, x)
    {
      bl := s;
      if mem[s].before.lunused {
        ghost var p := ReadsLeft(mem[..], blk, End(), s);
        JoinMeans(blk, p, s, s);
        JoinLonely(blk, End(), p, s);
        bl := if mem[s].before.lsize8 then s - 1 else mem[s].before.left;
        JoinLeft(bl, s);
      } else {
        forall p | p in blk && p + blk[p].size == s ensures !blk[p].unused {
          assert Fits(blk, p, End()) && Tagged(mem[..], blk, p);
        }
      }
    }

    /** `node_insert`: the block, already marked, is filed by its size. */
    method File(s: nat, size: nat)
      requires ring.mem == mem && ring.Valid() && Lists(ring.order, small) && 0 < s && s + 1 < mem.Length
      requires s !in ring.order && size >= 1
      modifies this`small, this`queued, this`tree, ring, mem
      ensures ring.Valid() && Lists(ring.order, small) && small == More(old(small), s, size == 1)
      ensures queued == More(old(queued), s, 1 < size <= QS_UNITS) && tree == More(old(tree), s, size > QS_UNITS)
      ensures var l := Stop(old(ring.order), |old(ring.order)|);
              && (l == 0 || l + 1 < mem.Length)
              && mem[..] == if size == 1 then Spliced(SmallInsert(old(mem[..]), s, l), l, s, s) else old(mem[..])
    {
      LastPlace(mem[..], ring.order);
      if size > QS_UNITS { tree := tree + {s}; }
      else if size == 1 {
        ring.Insert(s);
        small := small + {s};
      } else { queued := queued + {s}; }
    }

    /** `set_unused` and `node_insert`. */
    method Close(s: nat)
      requires Half(s) && Lonely(blk, s)
      modifies this, ring, mem
      ensures Valid() && blk == old(blk)[s := Block(old(blk)[s].size, true)]
    {
      CloseAll(mem[..], blk, End(), s, small, queued, tree, ring.first, ring.last, ring.order);
      var size := mem[s].own.word.size;
      MarkUnused(s, s + size);
      File(s, size);
      blk := blk[s := Block(blk[s].size, true)];
    }

    /** `merge_node`. Free neighbours on both sides are joined with the block. A region in which nothing
        else is in use is given back, unless it makes up more than a quarter of the memory in hand or can
        serve a pending request. */
    method Free(s: nat, alloced: nat, wanted: nat) returns (released: bool, wanted': nat)
      requires Valid() && s in blk && !blk[s].unused
      modifies this, ring, mem
      ensures !released ==> Valid() && Freed(old(blk), s, blk)
      ensures released || wanted' != wanted ==>
                (forall t :: InUse(old(blk), t) ==> t == s) && (End() - 1) * 4 <= alloced
      ensures (forall t :: InUse(old(blk), t) ==> t == s) && (End() - 1) * 4 <= alloced ==>
                released == (wanted == 0 || wanted > End() - 1) && wanted' == (if released then wanted else 0)
    {
      released, wanted' := false, wanted;
      MergeRight(s);
      var bl := MergeLeft(s);
      assert SameUsed(old(blk), s, blk, bl);
      FillsRegion(blk, End(), bl);
      var msize := mem[bl].own.word.size;
      var br := bl + msize;
      if br in blk { assert Fits(blk, br, End()) && Tagged(mem[..], blk, br); }
      if mem[bl].own.word.offset < 2 && mem[br].own.word.size == 0 && msize * 4 <= alloced {
        if wanted != 0 && wanted <= msize { wanted' := 0; } else { released := true; return; }
      }
      CloseFreed(old(blk), s, blk, bl);
      Close(bl);
    }
  }
}
