/** The fast lists: `size2fl`, `fast_free` and `fast_alloc` (others/tmi/src/ll_alloc.c). */
module FastBins {
  import opened OrderedKeys

  const NUM_FL: nat := 64
  const FAST_64_BIN: nat := 67108863

  datatype Block = Block(addr: nat, size: nat)

  /** `Misplaced`: a block would have to move below bin 0. */
  datatype Outcome = Found(b: Block) | Nothing | Misplaced

  // ---- the bin of a size ---------------------------------------------------------------------------------

  /** Position of the highest bit. */
  function Log2(x: nat): nat { if x < 2 then 0 else 1 + Log2(x / 2) }

  lemma {:induction false} Log2Mono(x: nat, y: nat)
    requires x <= y
    ensures Log2(x) <= Log2(y)
  {
    if x >= 2 { Log2Mono(x / 2, y / 2); }
  }

  function Cube(n: nat): nat { n * n * n }

  lemma CubeMono(m: nat, n: nat)
    requires m <= n
    ensures Cube(m) <= Cube(n)
  {
    assert m * m <= n * n;
    assert m * m * m <= n * n * m <= n * n * n;
  }

  /** Sizes are multiples of 16. */
  predicate Sized(size: nat) { size >= 16 && size % 16 == 0 }

  function Bin(size: nat): nat
    requires Sized(size)
  {
    if size == 16 then 0 else if size > FAST_64_BIN then NUM_FL - 1 else Log2(Cube(size / 32))
  }

  function Pow2(k: nat): nat { if k == 0 then 1 else 2 * Pow2(k - 1) }

  /** The highest bit of a positive number. */
  lemma {:induction false} Log2Exact(x: nat)
    requires x > 0
    ensures Pow2(Log2(x)) <= x < Pow2(Log2(x) + 1)
  {
    if x >= 2 { Log2Exact(x / 2); }
  }

  lemma {:induction false} Log2Below(x: nat, k: nat)
    requires x < Pow2(k) && k > 0
    ensures Log2(x) < k
  {
    if x >= 2 { Log2Below(x / 2, k - 1); }
  }

  lemma {:induction false} Pow2Sum(a: nat, b: nat)
    ensures Pow2(a + b) == Pow2(a) * Pow2(b)
  {
    if a > 0 {
      Pow2Sum(a - 1, b);
      Associate(2, Pow2(a - 1), Pow2(b));
    }
  }

  lemma Associate(x: nat, y: nat, z: nat)
    ensures x * (y * z) == x * y * z
  {}

  lemma CubeBelow(n: nat, m: nat)
    requires n < m
    ensures Cube(n) < m * m * m
  {
    CubeMono(n, m - 1);
    assert m * m * m - (m - 1) * (m - 1) * (m - 1) == 3 * m * (m - 1) + 1;
    assert m * (m - 1) >= 0;
  }

  /** Everything that may be binned by the cube stays below the last bin. */
  lemma TopBin(size: nat)
    requires size <= FAST_64_BIN
    ensures Log2(Cube(size / 32)) < NUM_FL - 1
  {
    assert Pow2(7) == 128;
    Pow2Sum(7, 7);
    Pow2Sum(14, 7);
    assert Pow2(21) == 2097152;
    CubeBelow(size / 32, Pow2(21));
    Pow2Sum(21, 21);
    Pow2Sum(42, 21);
    Log2Below(Cube(size / 32), 63);
  }

  lemma BinMono(a: nat, b: nat)
    requires Sized(a) && Sized(b) && a <= b
    ensures Bin(a) <= Bin(b) < NUM_FL
  {
    if a <= FAST_64_BIN { TopBin(a); }
    if b <= FAST_64_BIN {
      TopBin(b);
      CubeMono(a / 32, b / 32);
      Log2Mono(Cube(a / 32), Cube(b / 32));
    }
  }

  /** Bin 0 is for the sizes below 64. */
  lemma BinZero(size: nat)
    requires Sized(size)
    ensures size < 64 ==> Bin(size) == 0
    ensures size >= 64 ==> Bin(size) >= 3
  {
    if size >= 64 {
      assert Cube(2) == 8 && Log2(8) == 3;
      assert Bin(64) == 3;
      BinMono(64, size);
    }
  }

  // ---- the lists ---------------------------------------------------------------------------------------------

  /** All blocks of the first `k` bins. */
  function All(bins: seq<seq<Block>>, k: nat): multiset<Block>
    requires k <= |bins|
  {
    if k == 0 then multiset{} else All(bins, k - 1) + multiset(bins[k - 1])
  }

  lemma {:induction false} AllSame(bins: seq<seq<Block>>, k: nat, i: nat, s: seq<Block>)
    requires k <= i < |bins|
    ensures All(bins[i := s], k) == All(bins, k)
  {
    if k > 0 { AllSame(bins, k - 1, i, s); }
  }

  lemma Swap<T>(x: multiset<T>, y: multiset<T>, p: multiset<T>, q: multiset<T>, z: multiset<T>)
    requires x + p == y + q
    ensures (x + z) + p == (y + z) + q
  {
    calc { (x + z) + p; (x + p) + z; (y + q) + z; (y + z) + q; }
  }

  lemma {:induction false} AllSwap(bins: seq<seq<Block>>, k: nat, i: nat, s: seq<Block>)
    requires i < k <= |bins|
    ensures All(bins[i := s], k) + multiset(bins[i]) == All(bins, k) + multiset(s)
  {
    var bins' := bins[i := s];
    if i == k - 1 {
      AllSame(bins, k - 1, i, s);
      calc {
        All(bins', k) + multiset(bins[i]);
        All(bins, k - 1) + multiset(s) + multiset(bins[i]);
        All(bins, k - 1) + multiset(bins[i]) + multiset(s);
      }
    } else {
      AllSwap(bins, k - 1, i, s);
      Swap(All(bins', k - 1), All(bins, k - 1), multiset(bins[i]), multiset(s), multiset(bins[k - 1]));
    }
  }

  lemma Cancel<T>(x: multiset<T>, y: multiset<T>, z: multiset<T>)
    requires x + z == y + z
    ensures x == y
  {
    forall e ensures x[e] == y[e] { assert (x + z)[e] == (y + z)[e]; }
  }

  lemma AllPush(bins: seq<seq<Block>>, i: nat, b: Block)
    requires |bins| == NUM_FL && i < NUM_FL
    ensures All(bins[i := [b] + bins[i]], NUM_FL) == All(bins, NUM_FL) + multiset{b}
  {
    var bins' := bins[i := [b] + bins[i]];
    AllSwap(bins, NUM_FL, i, [b] + bins[i]);
    assert All(bins', NUM_FL) + multiset(bins[i]) == (All(bins, NUM_FL) + multiset{b}) + multiset(bins[i]) by {
      assert multiset([b] + bins[i]) == multiset{b} + multiset(bins[i]);
    }
    Cancel(All(bins', NUM_FL), All(bins, NUM_FL) + multiset{b}, multiset(bins[i]));
  }

  lemma AllPop(bins: seq<seq<Block>>, i: nat)
    requires |bins| == NUM_FL && i < NUM_FL && bins[i] != []
    ensures All(bins[i := bins[i][1..]], NUM_FL) + multiset{bins[i][0]} == All(bins, NUM_FL)
  {
    var b, bins' := bins[i][0], bins[i := bins[i][1..]];
    assert bins' [i := [b] + bins'[i]] == bins by { assert [b] + bins[i][1..] == bins[i]; }
    AllPush(bins', i, b);
  }

  /** A block sits in the bin of its size or in the one below. */
  predicate Belongs(b: Block, i: nat) { Sized(b.size) && (Bin(b.size) == i || Bin(b.size) == i + 1) }

  ghost predicate Binned(bins: seq<seq<Block>>, mask: set<nat>) {
    && |bins| == NUM_FL && (forall i :: i in mask ==> i < NUM_FL)
    && (forall i, b :: 0 <= i < NUM_FL && b in bins[i] ==> Belongs(b, i))
    && (forall i :: 0 <= i < NUM_FL && bins[i] != [] ==> i in mask)
  }

  lemma PushBinned(bins: seq<seq<Block>>, mask: set<nat>, i: nat, b: Block)
    requires Binned(bins, mask) && i < NUM_FL && Belongs(b, i)
    ensures Binned(bins[i := [b] + bins[i]], mask + {i})
  {}

  lemma PopBinned(bins: seq<seq<Block>>, mask: set<nat>, i: nat)
    requires Binned(bins, mask) && i < NUM_FL && bins[i] != []
    ensures Binned(bins[i := bins[i][1..]], mask) && Belongs(bins[i][0], i)
  {}

  /** A block that is too small for a request was in the request's own bin, and belongs in the next lower
      one just as well; blocks in higher bins are large enough. */
  lemma TooSmall(b: Block, i: nat, size: nat)
    requires Sized(size) && Belongs(b, i) && Bin(size) <= i
    ensures b.size < size ==> i == Bin(size) && (i > 0 ==> Belongs(b, i - 1))
  {
    if b.size < size { BinMono(b.size, size); }
  }

  class FastLists {
    var bins: seq<seq<Block>>
    var mask: set<nat>

    ghost predicate Valid()
      reads this
    {
      Binned(bins, mask)
    }

    ghost function Blocks(): multiset<Block>
      requires Valid()
      reads this
    {
      All(bins, NUM_FL)
    }

    constructor ()
      ensures Valid() && forall i :: 0 <= i < NUM_FL ==> bins[i] == []
    {
      bins := seq(NUM_FL, _ => []);
      mask := {};
    }

    /** `fast_add`. */
    method Push(i: nat, b: Block)
      requires Valid() && i < NUM_FL && Belongs(b, i)
      modifies this
      ensures Valid() && bins == old(bins)[i := [b] + old(bins)[i]] && mask == old(mask) + {i}
      ensures Blocks() == old(Blocks()) + multiset{b}
    {
      PushBinned(bins, mask, i, b);
      AllPush(bins, i, b);
      bins := bins[i := [b] + bins[i]];
      mask := mask + {i};
    }

    /** `slist_rem`. */
    method Pop(i: nat) returns (b: Block)
      requires Valid() && i < NUM_FL && bins[i] != []
      modifies this`bins
      ensures Valid() && b == old(bins)[i][0] && Belongs(b, i) && bins == old(bins)[i := old(bins)[i][1..]]
      ensures Blocks() + multiset{b} == old(Blocks())
    {
      PopBinned(bins, mask, i);
      AllPop(bins, i);
      b := bins[i][0];
      bins := bins[i := bins[i][1..]];
    }

    /** `fast_free`. */
    method Free(b: Block)
      requires Valid() && Sized(b.size)
      modifies this
      ensures Valid() && Blocks() == old(Blocks()) + multiset{b}
      ensures Bin(b.size) < NUM_FL && mask == old(mask) + {Bin(b.size)}
      ensures bins == old(bins)[Bin(b.size) := [b] + old(bins)[Bin(b.size)]]
    {
      BinMono(b.size, b.size);
      Push(Bin(b.size), b);
    }

    /** One round of the inner loop. */
    method TryFirst(n: nat, size: nat) returns (r: Outcome)
      requires Valid() && Sized(size) && Bin(size) <= n < NUM_FL && bins[n] != []
      modifies this
      ensures !r.Misplaced? ==> Valid() && bins[n] == old(bins)[n][1..]
      ensures !r.Misplaced? ==> forall k :: Bin(size) <= k < NUM_FL && k != n ==> bins[k] == old(bins)[k]
      ensures r.Found? ==> r.b == old(bins)[n][0] && r.b.size >= size && mask == old(mask)
      ensures r.Found? ==> Blocks() + multiset{r.b} == old(Blocks())
      ensures r.Nothing? ==> n > 0 && old(bins)[n][0].size < size && mask == old(mask) + {n - 1}
      ensures r.Nothing? ==> Blocks() == old(Blocks())
      ensures r.Misplaced? ==> n == 0 && old(bins)[n][0].size < size && mask == old(mask)
    {
      var b := Pop(n);
      TooSmall(b, n, size);
      if b.size >= size { return Found(b); }
      if n == 0 { return Misplaced; }
      Push(n - 1, b);
      r := Nothing;
    }

    /** The inner loop: bin `n` is emptied until a block fits; blocks that do not fit move down one bin. */
    method Search(n: nat, size: nat) returns (r: Outcome)
      requires Valid() && Sized(size) && Bin(size) <= n < NUM_FL
      modifies this
      ensures !r.Misplaced? ==> Valid()
      ensures r.Found? ==> r.b.size >= size && Blocks() + multiset{r.b} == old(Blocks())
      ensures r.Nothing? ==> Blocks() == old(Blocks()) && bins[n] == []
      ensures r.Nothing? ==> forall b :: b in old(bins)[n] ==> b.size < size
      ensures r.Misplaced? <==> n == 0 && old(bins)[0] != [] && old(bins)[0][0].size < size
      ensures !r.Misplaced? ==> forall k :: Bin(size) <= k < NUM_FL && k != n ==> bins[k] == old(bins)[k]
      ensures mask == old(mask) || (n > 0 && mask == old(mask) + {n - 1})
    {
      ghost var all, done := bins[n], 0;
      while bins[n] != []
        invariant Valid() && Blocks() == old(Blocks()) && (n == 0 ==> bins == old(bins))
        invariant done <= |all| && bins[n] == all[done..] && forall j :: 0 <= j < done ==> all[j].size < size
        invariant forall k :: Bin(size) <= k < NUM_FL && k != n ==> bins[k] == old(bins)[k]
        invariant mask == old(mask) || (n > 0 && mask == old(mask) + {n - 1})
        decreases |bins[n]|
      {
        var o := TryFirst(n, size);
        if !o.Nothing? { return o; }
        done := done + 1;
      }
      r := Nothing;
    }

    /** `fast_alloc`: up to four bins, from the request's own bin upwards. */
    method Alloc(size: nat) returns (r: Outcome)
      requires Valid() && Sized(size)
      modifies this
      ensures !r.Misplaced? ==> Valid()
      ensures r.Found? ==> r.b.size >= size && Blocks() + multiset{r.b} == old(Blocks())
      ensures r.Nothing? ==> Blocks() == old(Blocks())
      ensures r.Nothing? && size <= FAST_64_BIN ==>
                forall k, b :: Bin(size) <= k < Bin(size) + 4 && k < NUM_FL && b in old(bins)[k] ==> b.size < size
      ensures r.Misplaced? <==> size < 64 && old(bins)[0] != [] && old(bins)[0][0].size < size
    {
      BinZero(size);
      if size > FAST_64_BIN { return Nothing; }
      BinMono(size, size);
      var n0 := Bin(size);
      var todo := set k | k in mask && n0 <= k < n0 + 4;
      while todo != {}
        invariant Valid() && Blocks() == old(Blocks()) && todo <= mask && forall k :: k in todo ==> n0 <= k < n0 + 4
        invariant forall k :: k in todo ==> bins[k] == old(bins)[k]
        invariant forall k, b :: n0 <= k < n0 + 4 && k < NUM_FL && k !in todo && b in old(bins)[k] ==> b.size < size
        invariant 0 !in todo && n0 == 0 ==> old(bins)[0] == [] || old(bins)[0][0].size >= size
        decreases |todo|
      {
        var n := Lowest(todo);
        r := Search(n, size);
        if !r.Nothing? { return r; }
        todo := todo - {n};
        mask := mask - {n};
      }
      r := Nothing;
    }
  }

  /** Below 64 bytes a block can be pushed out of the lists: a request for 32 bytes meets a block of 16. */
  method SmallEscapes() returns (r: Outcome)
    ensures r.Misplaced?
  {
    var lists := new FastLists();
    BinZero(16);
    lists.Free(Block(0, 16));
    r := lists.Alloc(32);
  }
}
