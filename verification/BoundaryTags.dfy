/** The separators of a memory region of the Lockless allocator (others/tmi/src/ll_alloc.c).

    Everything is measured in units of 16 bytes: unit `i` of the region holds the separator that would
    start a block at byte `16 * i`. Block starts run from 1 (behind the region header) to the right
    separator at `end`. */
module BoundaryTags {
  /** The word that holds offset and size; the small list overwrites both by a link. */
  datatype Word = Plain(offset: int, size: int) | Link(prev: int)

  /** The part of a separator that describes its own block: the word, FLG_UNUSED and FLG_SIZE8. */
  datatype Own = Own(word: Word, unused: bool, size8: bool)

  /** The part that describes the block to the left: `left`, FLG_LUNUSED and FLG_LSIZE8. The pointer lies
      in the last bytes of the left block, so it is arbitrary while that block is in use. */
  datatype Before = Before(left: int, lunused: bool, lsize8: bool)

  datatype Sep = Sep(own: Own, before: Before)

  /** A block as the allocator should see it. */
  datatype Block = Block(size: nat, unused: bool)

  type Blocks = map<nat, Block>

  // ---- the operations on separators ------------------------------------------------------------------

  function SetUnused(m: seq<Sep>, b: nat, br: nat): (r: seq<Sep>)
    requires b < |m| && br < |m|
    ensures |r| == |m|
  {
    var m1 := m[br := m[br].(before := m[br].before.(lunused := true, left := b))];
    m1[b := m1[b].(own := m1[b].own.(unused := true))]
  }

  function SetUsed(m: seq<Sep>, b: nat, size: nat): (r: seq<Sep>)
    requires b + size < |m|
    ensures |r| == |m|
  {
    var br := b + size;
    var m1 := m[br := m[br].(before := m[br].before.(lunused := false))];
    m1[b := m1[b].(own := m1[b].own.(unused := false))]
  }

  /** `set_size8` and the overwriting of the word by the link to the previous small block. */
  function SmallInsert(m: seq<Sep>, b: nat, prev: int): (r: seq<Sep>)
    requires b + 1 < |m|
    ensures |r| == |m|
  {
    var m1 := m[b + 1 := m[b + 1].(before := m[b + 1].before.(lsize8 := true))];
    m1[b := m1[b].(own := m1[b].own.(size8 := true, word := Link(prev)))]
  }

  /** The offset bits of a separator, whatever they mean. */
  function OffsetBits(w: Word): int { if w.Plain? then w.offset else w.prev }

  /** `unset_size8`: the offset is rebuilt from the separator to the right. */
  function UnsetSize8(m: seq<Sep>, b: nat): (r: seq<Sep>)
    requires b + 1 < |m|
    ensures |r| == |m|
  {
    var m1 := m[b + 1 := m[b + 1].(before := m[b + 1].before.(lsize8 := false))];
    m1[b := m1[b].(own := m1[b].own.(size8 := false, word := Plain(OffsetBits(m[b + 1].own.word) - 1, 1)))]
  }

  /** `set_sep`: a new separator with all flags clear. */
  function SetSep(m: seq<Sep>, b: nat, size: nat, bo: nat): (r: seq<Sep>)
    requires b < |m| && bo < |m|
    ensures |r| == |m|
  {
    m[b := Sep(Own(Plain(OffsetBits(m[bo].own.word) + (b - bo), size), false, false),
               Before(m[b].before.left, false, false))]
  }

  function SetSize(m: seq<Sep>, b: nat, size: nat): (r: seq<Sep>)
    requires b < |m|
    ensures |r| == |m|
  {
    m[b := m[b].(own := m[b].own.(word := Plain(OffsetBits(m[b].own.word), size)))]
  }

  // ---- what the separators must say -------------------------------------------------------------------

  predicate Tiny(b: Block) { b.unused && b.size == 1 }

  predicate OwnOk(o: Own, s: nat, b: Block) {
    && o.unused == b.unused
    && if Tiny(b) then o.size8 && o.word.Link? else !o.size8 && o.word == Plain(s, b.size)
  }

  predicate BeforeOk(x: Before, s: nat, b: Block) {
    && x.lunused == b.unused && x.lsize8 == Tiny(b)
    && (b.unused && b.size > 1 ==> x.left == s)
  }

  predicate Fits(blk: Blocks, s: nat, end: nat)
    requires s in blk
  {
    1 <= s && 1 <= blk[s].size && s + blk[s].size <= end && (s + blk[s].size == end || s + blk[s].size in blk)
  }

  predicate InTurn(blk: Blocks, s: nat, t: nat)
    requires s in blk && t in blk
  {
    s < t ==> s + blk[s].size <= t
  }

  /** Blocks follow one another from 1 to `end` without gap or overlap. */
  ghost predicate Tiled(blk: Blocks, end: nat) {
    && 1 in blk
    && (forall s {:trigger Fits(blk, s, end)} :: s in blk ==> Fits(blk, s, end))
    && (forall s, t {:trigger InTurn(blk, s, t)} :: s in blk && t in blk ==> InTurn(blk, s, t))
  }

  predicate Tagged(m: seq<Sep>, blk: Blocks, s: nat)
    requires s in blk && s + blk[s].size < |m|
  {
    OwnOk(m[s].own, s, blk[s]) && BeforeOk(m[s + blk[s].size].before, s, blk[s])
  }

  /** The separator at the right end never looks unused; nothing lies to the left of the first block. */
  predicate Edges(m: seq<Sep>, end: nat)
    requires 1 < |m| == end + 1
  {
    m[end].own == Own(Plain(end, 0), false, false) && !m[1].before.lunused && !m[1].before.lsize8
  }

  /** The right neighbour is not free as well. */
  predicate Apart(blk: Blocks, s: nat)
    requires s in blk
  {
    blk[s].unused && s + blk[s].size in blk ==> !blk[s + blk[s].size].unused
  }

  /** Every block except possibly `o` is described by its separators. */
  ghost predicate TagsBut(m: seq<Sep>, blk: Blocks, end: nat, o: nat) {
    && 1 < end && |m| == end + 1 && Tiled(blk, end) && Edges(m, end)
    && (forall s {:trigger Tagged(m, blk, s)} :: s in blk && s != o && Fits(blk, s, end) ==> Tagged(m, blk, s))
    && (forall s {:trigger Apart(blk, s)} :: s in blk ==> Apart(blk, s))
  }

  ghost predicate Tags(m: seq<Sep>, blk: Blocks, end: nat) { TagsBut(m, blk, end, 0) }

  /** Block `o` is being merged: it counts as used, its word is right, and the separator behind it may
      still carry the flag of a block that has been absorbed. */
  ghost predicate Open(m: seq<Sep>, blk: Blocks, end: nat, o: nat) {
    && TagsBut(m, blk, end, o)
    && o in blk && !blk[o].unused && Fits(blk, o, end)
    && !m[o].own.size8 && m[o].own.word == Plain(o, blk[o].size)
    && !m[o + blk[o].size].before.lsize8
  }

  // ---- tiling ------------------------------------------------------------------------------------------

  predicate Holds(blk: Blocks, s: nat, x: nat) { s in blk && s <= x < s + blk[s].size }

  /** Every unit of the region lies in a block. */
  lemma {:induction false} Covered(blk: Blocks, end: nat, x: nat) returns (s: nat)
    requires Tiled(blk, end) && 1 <= x < end
    ensures Holds(blk, s, x)
  {
    if x == 1 {
      assert Fits(blk, 1, end);
      s := 1;
    } else {
      s := Covered(blk, end, x - 1);
      assert Fits(blk, s, end);
      if x == s + blk[s].size {
        s := x;
        assert Fits(blk, s, end);
      }
    }
  }

  /** And in only one. */
  lemma CoveredOnce(blk: Blocks, end: nat, x: nat, s: nat, t: nat)
    requires Tiled(blk, end) && Holds(blk, s, x) && Holds(blk, t, x)
    ensures s == t
  {
    assert InTurn(blk, s, t) && InTurn(blk, t, s);
  }

  lemma LeftOf(blk: Blocks, end: nat, s: nat) returns (p: nat)
    requires Tiled(blk, end) && s in blk && s != 1
    ensures p in blk && p + blk[p].size == s
  {
    assert Fits(blk, s, end);
    p := Covered(blk, end, s - 1);
    assert Fits(blk, p, end) && InTurn(blk, p, s);
  }

  ghost predicate InSome(blk: Blocks, x: nat) { exists s :: Holds(blk, s, x) }

  ghost predicate ExactlyTiled(blk: Blocks, end: nat) {
    && (forall x :: 1 <= x < end ==> InSome(blk, x))
    && (forall x, s, t :: Holds(blk, s, x) && Holds(blk, t, x) ==> s == t)
  }

  /** Every unit between the edges belongs to exactly one block. */
  lemma TilesExactly(blk: Blocks, end: nat)
    requires Tiled(blk, end)
    ensures ExactlyTiled(blk, end)
  {
    forall x | 1 <= x < end ensures InSome(blk, x) { var s := Covered(blk, end, x); }
    forall x, s, t | Holds(blk, s, x) && Holds(blk, t, x) ensures s == t { CoveredOnce(blk, end, x, s, t); }
  }
}
