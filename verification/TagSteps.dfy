/** What splitting, merging, freeing and taking do to the separators. */
module TagSteps {
  import opened BoundaryTags

  /** Whatever separator follows a free block belongs to a block in use, or is the right edge. */
  lemma BehindFree(m: seq<Sep>, blk: Blocks, end: nat, s: nat)
    requires Tags(m, blk, end) && s in blk && blk[s].unused
    ensures Fits(blk, s, end) && Tagged(m, blk, s)
    ensures var r := s + blk[s].size; !m[r].own.unused && m[r].own.word.Plain? && m[r].own.word.offset == r
  {
    var r := s + blk[s].size;
    assert Fits(blk, s, end) && Tagged(m, blk, s) && Apart(blk, s);
    if r in blk { assert Fits(blk, r, end) && Tagged(m, blk, r); }
  }

  /** The offset that the small list destroyed is recovered from the right neighbour. */
  lemma RebuildsOffset(m: seq<Sep>, blk: Blocks, end: nat, s: nat)
    requires Tags(m, blk, end) && s in blk && Tiny(blk[s])
    ensures s + 1 < |m| && UnsetSize8(m, s)[s].own.word == Plain(s, 1)
  {
    BehindFree(m, blk, end, s);
  }

  predicate Alone(blk: Blocks, x: nat, s: nat)
    requires x in blk && s in blk
  {
    InTurn(blk, x, s) && InTurn(blk, s, x)
  }

  // ---- splitting ----------------------------------------------------------------------------------------

  function SplitBlocks(blk: Blocks, s: nat, k: nat): Blocks
    requires s in blk && k < blk[s].size
  {
    blk[s := Block(k, false)][s + k := Block(blk[s].size - k, false)]
  }

  function SplitSeps(m: seq<Sep>, s: nat, size: nat, k: nat): (r: seq<Sep>)
    requires k < size && s + size < |m|
    ensures |r| == |m|
  {
    SetSep(SetSize(m, s, k), s + k, size - k, s)
  }

  lemma SplitFresh(blk: Blocks, end: nat, s: nat, k: nat, x: nat)
    requires Tiled(blk, end) && s in blk && 0 < k < blk[s].size && x in blk
    ensures x != s + k
  {
    assert InTurn(blk, s, x);
  }

  lemma SplitNew(blk: Blocks, end: nat, s: nat, k: nat)
    requires Tiled(blk, end) && s in blk && 0 < k < blk[s].size
    ensures s + k !in blk
  {
    if s + k in blk { SplitFresh(blk, end, s, k, s + k); }
  }

  lemma SplitInTurn(blk: Blocks, end: nat, s: nat, k: nat, x: nat, y: nat)
    requires Tiled(blk, end) && s in blk && 0 < k < blk[s].size && x in SplitBlocks(blk, s, k)
    requires y in SplitBlocks(blk, s, k)
    ensures InTurn(SplitBlocks(blk, s, k), x, y)
  {
    var x0, y0 := if x == s + k then s else x, if y == s + k then s else y;
    assert InTurn(blk, x0, y0) && InTurn(blk, y0, x0);
  }

  lemma SplitFits(blk: Blocks, end: nat, s: nat, k: nat, x: nat)
    requires Tiled(blk, end) && s in blk && 0 < k < blk[s].size && x in SplitBlocks(blk, s, k)
    ensures Fits(SplitBlocks(blk, s, k), x, end)
  {
    assert Fits(blk, if x == s + k then s else x, end) && Fits(blk, s, end);
  }

  lemma SplitTiled(blk: Blocks, end: nat, s: nat, k: nat)
    requires Tiled(blk, end) && s in blk && 0 < k < blk[s].size
    ensures Tiled(SplitBlocks(blk, s, k), end)
  {
    var blk' := SplitBlocks(blk, s, k);
    forall x | x in blk' ensures Fits(blk', x, end) { SplitFits(blk, end, s, k, x); }
    forall x, y | x in blk' && y in blk' ensures InTurn(blk', x, y) { SplitInTurn(blk, end, s, k, x, y); }
  }

  lemma SplitTagged(m: seq<Sep>, blk: Blocks, end: nat, s: nat, k: nat, x: nat)
    requires Tags(m, blk, end) && s in blk && !blk[s].unused && 0 < k < blk[s].size && x in SplitBlocks(blk, s, k)
    requires Fits(blk, s, end) && Fits(SplitBlocks(blk, s, k), x, end)
    ensures Tagged(SplitSeps(m, s, blk[s].size, k), SplitBlocks(blk, s, k), x) && Apart(SplitBlocks(blk, s, k), x)
  {
    assert Tagged(m, blk, s);
    if x in blk {
      assert Fits(blk, x, end) && Tagged(m, blk, x) && Alone(blk, x, s) && Apart(blk, x);
      SplitFresh(blk, end, s, k, x);
    }
  }

  lemma SplitTags(m: seq<Sep>, blk: Blocks, end: nat, s: nat, k: nat)
    requires Tags(m, blk, end) && s in blk && !blk[s].unused && 0 < k < blk[s].size
    ensures s + blk[s].size < |m| && Tags(SplitSeps(m, s, blk[s].size, k), SplitBlocks(blk, s, k), end)
  {
    var blk' := SplitBlocks(blk, s, k);
    SplitTiled(blk, end, s, k);
    assert Fits(blk, s, end);
    var m' := SplitSeps(m, s, blk[s].size, k);
    forall x | x in blk' ensures Fits(blk', x, end) && Tagged(m', blk', x) && Apart(blk', x) {
      assert Fits(blk', x, end);
      SplitTagged(m, blk, end, s, k, x);
    }
    assert Edges(m', end) by { assert Fits(blk, 1, end); SplitEdges(m, blk, end, s, k); }
  }

  lemma SplitEdges(m: seq<Sep>, blk: Blocks, end: nat, s: nat, k: nat)
    requires Tags(m, blk, end) && s in blk && 0 < k < blk[s].size && Fits(blk, s, end)
    ensures Edges(SplitSeps(m, s, blk[s].size, k), end)
  {}

  // ---- merging ------------------------------------------------------------------------------------------

  /** Block `t`, which follows `s`, becomes part of it. */
  function Joined(blk: Blocks, s: nat, t: nat): Blocks
    requires s in blk && t in blk
  {
    (blk - {t})[s := Block(blk[s].size + blk[t].size, false)]
  }

  lemma JoinFits(blk: Blocks, end: nat, s: nat, t: nat, x: nat)
    requires Tiled(blk, end) && s in blk && t in blk && t == s + blk[s].size && x in Joined(blk, s, t)
    ensures Fits(Joined(blk, s, t), x, end)
  {
    assert Fits(blk, x, end) && Fits(blk, s, end) && Fits(blk, t, end) && Alone(blk, x, s) && Alone(blk, x, t);
  }

  lemma JoinTiled(blk: Blocks, end: nat, s: nat, t: nat)
    requires Tiled(blk, end) && s in blk && t in blk && t == s + blk[s].size
    ensures Tiled(Joined(blk, s, t), end)
  {
    var blk' := Joined(blk, s, t);
    assert Fits(blk, s, end);
    forall x | x in blk' ensures Fits(blk', x, end) { JoinFits(blk, end, s, t, x); }
    forall x, y | x in blk' && y in blk' ensures InTurn(blk', x, y) { assert InTurn(blk, x, y) && InTurn(blk, t, y); }
  }

  lemma TagsOpen(m: seq<Sep>, blk: Blocks, end: nat, s: nat)
    requires Tags(m, blk, end) && s in blk && !blk[s].unused
    ensures Open(m, blk, end, s)
  {
    assert Fits(blk, s, end) && Tagged(m, blk, s);
  }

  function AbsorbRight(m: seq<Sep>, s: nat, size: nat, rsize: nat, small: bool): (r: seq<Sep>)
    requires s + size + 1 < |m|
    ensures |r| == |m|
  {
    SetSize(if small then UnsetSize8(m, s + size) else m, s, size + rsize)
  }

  lemma RightTagged(m: seq<Sep>, blk: Blocks, end: nat, s: nat, t: nat, x: nat)
    requires Tags(m, blk, end) && s in blk && t in blk && t == s + blk[s].size && blk[t].unused && Fits(blk, t, end)
    requires x in Joined(blk, s, t) && x != s && Fits(Joined(blk, s, t), x, end)
    ensures Tagged(AbsorbRight(m, s, blk[s].size, blk[t].size, Tiny(blk[t])), Joined(blk, s, t), x)
  {
    assert Fits(blk, x, end) && Tagged(m, blk, x) && Alone(blk, x, s) && Alone(blk, x, t);
  }

  lemma JoinApart(blk: Blocks, end: nat, s: nat, t: nat, x: nat)
    requires Tiled(blk, end) && s in blk && t in blk && t == s + blk[s].size && x in Joined(blk, s, t)
    requires x != s ==> Apart(blk, x)
    ensures Apart(Joined(blk, s, t), x)
  {}

  lemma RightTags(m: seq<Sep>, blk: Blocks, end: nat, s: nat, t: nat)
    requires Tags(m, blk, end) && s in blk && !blk[s].unused && t in blk && t == s + blk[s].size && blk[t].unused
    ensures t + 1 < |m| && Open(AbsorbRight(m, s, blk[s].size, blk[t].size, Tiny(blk[t])), Joined(blk, s, t), end, s)
  {
    var blk' := Joined(blk, s, t);
    JoinTiled(blk, end, s, t);
    BehindFree(m, blk, end, t);
    assert Fits(blk, s, end) && Tagged(m, blk, s);
    var m' := AbsorbRight(m, s, blk[s].size, blk[t].size, Tiny(blk[t]));
    assert Fits(blk', s, end);
    forall x | x in blk' && x != s && Fits(blk', x, end) ensures Tagged(m', blk', x) {
      RightTagged(m, blk, end, s, t, x);
    }
    forall x | x in blk' ensures Apart(blk', x) { assert Apart(blk, x); JoinApart(blk, end, s, t, x); }
  }

  function AbsorbLeft(m: seq<Sep>, p: nat, psize: nat, size: nat, small: bool): (r: seq<Sep>)
    requires p + 1 < |m|
    ensures |r| == |m|
  {
    SetSize(if small then UnsetSize8(m, p) else m, p, psize + size)
  }

  /** The flags in front of a block name its left neighbour when that is free. */
  lemma ReadsLeft(m: seq<Sep>, blk: Blocks, end: nat, s: nat) returns (p: nat)
    requires Open(m, blk, end, s) && m[s].before.lunused
    ensures p in blk && p + blk[p].size == s && blk[p].unused && Fits(blk, p, end) && Tagged(m, blk, p)
    ensures p == if m[s].before.lsize8 then s - 1 else m[s].before.left
  {
    p := LeftOf(blk, end, s);
    assert Fits(blk, p, end) && Tagged(m, blk, p);
  }

  lemma LeftTagged(m: seq<Sep>, blk: Blocks, end: nat, p: nat, s: nat, x: nat)
    requires Open(m, blk, end, s) && p in blk && p + blk[p].size == s && blk[p].unused && Fits(blk, p, end)
    requires x in Joined(blk, p, s) && x != p && Fits(Joined(blk, p, s), x, end)
    ensures Tagged(AbsorbLeft(m, p, blk[p].size, blk[s].size, Tiny(blk[p])), Joined(blk, p, s), x)
  {
    assert Fits(blk, x, end) && Tagged(m, blk, x) && Alone(blk, x, s) && Alone(blk, x, p);
  }

  lemma LeftTags(m: seq<Sep>, blk: Blocks, end: nat, p: nat, s: nat)
    requires Open(m, blk, end, s) && p in blk && p + blk[p].size == s && blk[p].unused
    ensures p + 1 < |m| && Open(AbsorbLeft(m, p, blk[p].size, blk[s].size, Tiny(blk[p])), Joined(blk, p, s), end, p)
  {
    var blk' := Joined(blk, p, s);
    JoinTiled(blk, end, p, s);
    assert Fits(blk, p, end) && Tagged(m, blk, p) && Fits(blk, s, end);
    var m' := AbsorbLeft(m, p, blk[p].size, blk[s].size, Tiny(blk[p]));
    assert Fits(blk', p, end);
    forall x | x in blk' && x != p && Fits(blk', x, end) ensures Tagged(m', blk', x) {
      LeftTagged(m, blk, end, p, s, x);
    }
    forall x | x in blk' ensures Apart(blk', x) { assert Apart(blk, x); JoinApart(blk, end, p, s, x); }
  }

  // ---- closing an open block ------------------------------------------------------------------------------

  /** No neighbour is free. */
  ghost predicate Lonely(blk: Blocks, s: nat)
    requires s in blk
  {
    && (s + blk[s].size in blk ==> !blk[s + blk[s].size].unused)
    && (forall p :: p in blk && p + blk[p].size == s ==> !blk[p].unused)
  }

  function CloseSeps(m: seq<Sep>, s: nat, size: nat, prev: int): (r: seq<Sep>)
    requires 0 < size && s + size < |m|
    ensures |r| == |m|
  {
    var m1 := SetUnused(m, s, s + size);
    if size == 1 then SmallInsert(m1, s, prev) else m1
  }

  lemma FlagTiled(blk: Blocks, end: nat, s: nat, unused: bool)
    requires Tiled(blk, end) && s in blk
    ensures Tiled(blk[s := Block(blk[s].size, unused)], end)
  {
    var blk' := blk[s := Block(blk[s].size, unused)];
    forall t | t in blk' ensures Fits(blk', t, end) { assert Fits(blk, t, end); }
    forall x, y | x in blk' && y in blk' ensures InTurn(blk', x, y) { assert InTurn(blk, x, y); }
  }

  lemma CloseTagged(m: seq<Sep>, blk: Blocks, end: nat, s: nat, prev: int, x: nat)
    requires Open(m, blk, end, s) && Lonely(blk, s) && x in blk && Fits(blk, x, end)
    ensures var blk' := blk[s := Block(blk[s].size, true)];
            Tagged(CloseSeps(m, s, blk[s].size, prev), blk', x) && Apart(blk', x)
  {
    if x != s { assert Tagged(m, blk, x) && Alone(blk, x, s) && Apart(blk, x); }
  }

  lemma CloseEdges(m: seq<Sep>, blk: Blocks, end: nat, s: nat, prev: int)
    requires Open(m, blk, end, s)
    ensures Edges(CloseSeps(m, s, blk[s].size, prev), end)
  {}

  lemma CloseTags(m: seq<Sep>, blk: Blocks, end: nat, s: nat, prev: int)
    requires Open(m, blk, end, s) && Lonely(blk, s)
    ensures Tags(CloseSeps(m, s, blk[s].size, prev), blk[s := Block(blk[s].size, true)], end)
  {
    var blk' := blk[s := Block(blk[s].size, true)];
    FlagTiled(blk, end, s, true);
    var m' := CloseSeps(m, s, blk[s].size, prev);
    forall x | x in blk' ensures Fits(blk', x, end) && Tagged(m', blk', x) && Apart(blk', x) {
      assert Fits(blk, x, end) && Fits(blk', x, end);
      CloseTagged(m, blk, end, s, prev, x);
    }
    CloseEdges(m, blk, end, s, prev);
  }

  // ---- taking a free block -----------------------------------------------------------------------------------

  function TakeSeps(m: seq<Sep>, s: nat, size: nat): (r: seq<Sep>)
    requires 0 < size && s + size < |m|
    ensures |r| == |m|
  {
    SetUsed(if size == 1 then UnsetSize8(m, s) else m, s, size)
  }

  lemma TakeTagged(m: seq<Sep>, blk: Blocks, end: nat, s: nat, x: nat)
    requires Tags(m, blk, end) && s in blk && blk[s].unused && Fits(blk, s, end) && x in blk && Fits(blk, x, end)
    ensures var blk' := blk[s := Block(blk[s].size, false)];
            Tagged(TakeSeps(m, s, blk[s].size), blk', x) && Apart(blk', x)
  {
    BehindFree(m, blk, end, s);
    if x != s { assert Tagged(m, blk, x) && Alone(blk, x, s) && Apart(blk, x); }
  }

  lemma TakeTags(m: seq<Sep>, blk: Blocks, end: nat, s: nat)
    requires Tags(m, blk, end) && s in blk && blk[s].unused
    ensures 0 < blk[s].size && s + blk[s].size < |m|
    ensures Tags(TakeSeps(m, s, blk[s].size), blk[s := Block(blk[s].size, false)], end)
  {
    var blk' := blk[s := Block(blk[s].size, false)];
    FlagTiled(blk, end, s, false);
    assert Fits(blk, s, end);
    var m' := TakeSeps(m, s, blk[s].size);
    forall x | x in blk' ensures Fits(blk', x, end) && Tagged(m', blk', x) && Apart(blk', x) {
      assert Fits(blk, x, end) && Fits(blk', x, end);
      TakeTagged(m, blk, end, s, x);
    }
  }
}
