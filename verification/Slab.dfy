/** Slabs of small objects: `slab_create`, `slab_alloc_aux` and `slab_free`
    (others/tmi/src/ll_alloc.c). Addresses are in bytes. */
module Slab {
  const SLAB_UNITS: nat := 8192      // SLABSIZE / 16
  const HEADER_UNITS: nat := 5       // offsetof(sbheader, data) / 16

  // ---- where the objects lie ---------------------------------------------------------------------------

  /** Units of 16 bytes taken by all objects of `u` units: `sltotal`. */
  function TotalUnits(u: nat): nat
    requires u > 0
  {
    (SLAB_UNITS - HEADER_UNITS) / u * u
  }

  /** The unit at which object `k` starts if the first object starts at unit `a`. */
  function Unit(a: nat, u: nat, k: nat): (r: nat)
    ensures r >= a
  {
    if k == 0 then a else Unit(a, u, k - 1) + u
  }

  function Slot(a: nat, u: nat, k: nat): nat { 16 * Unit(a, u, k) }

  lemma {:induction false} UnitClosed(a: nat, u: nat, k: nat)
    ensures Unit(a, u, k) == a + k * u
  {
    if k > 0 {
      UnitClosed(a, u, k - 1);
      assert k * u == (k - 1) * u + u;
    }
  }

  lemma {:induction false} SlotApart(a: nat, u: nat, j: nat, k: nat)
    requires j < k
    ensures Slot(a, u, j) + 16 * u <= Slot(a, u, k)
    decreases k
  {
    if j < k - 1 { SlotApart(a, u, j, k - 1); }
  }

  lemma Scaled(slack: nat, rng: nat)
    requires rng < 0x1_0000_0000
    ensures (slack * rng) / 0x1_0000_0000 <= slack
  {}

  lemma TotalFits(u: nat)
    requires 0 < u <= 32
    ensures u <= TotalUnits(u) <= SLAB_UNITS - HEADER_UNITS
    ensures u == 4 || u == 16 ==> 8 + TotalUnits(u) <= SLAB_UNITS
  {}

  /** `rnd_offset`: a random number of units within the slack. */
  function RandomUnits(slack: nat, rng: nat): (off: nat)
    requires rng < 0x1_0000_0000
    ensures 16 * off <= slack
  {
    Scaled(slack, rng);
    (slack * rng) / 0x1_0000_0000 / 16
  }

  /** The start of the first object: cache-line aligned for 64 and 256 bytes, else at a random multiple of
      16 in the slack. `rng` is the 32-bit number made of the address. */
  function StartUnit(base: nat, u: nat, rng: nat): (a: nat)
    requires 0 < u <= 32 && rng < 0x1_0000_0000
    ensures base + HEADER_UNITS <= a && a + TotalUnits(u) <= base + SLAB_UNITS
  {
    TotalFits(u);
    if u == 4 || u == 16 then base + 8
    else
      base + HEADER_UNITS + RandomUnits(16 * (SLAB_UNITS - HEADER_UNITS - TotalUnits(u)), rng)
  }

  // ---- the free chain -------------------------------------------------------------------------------------

  /** From `first` the links run through `chain` and end in `last`. */
  predicate Linked(mem: map<nat, nat>, first: nat, chain: seq<nat>, last: nat)
    decreases |chain|
  {
    if chain == [] then first == last
    else first == chain[0] && first in mem && Linked(mem, mem[first], chain[1..], last)
  }

  predicate Distinct(s: seq<nat>) { forall i, j :: 0 <= i < j < |s| ==> s[i] != s[j] }

  /** Writing elsewhere does not disturb the chain. */
  lemma {:induction false} LinkedFrame(mem: map<nat, nat>, first: nat, chain: seq<nat>, last: nat, p: nat, w: nat)
    requires Linked(mem, first, chain, last) && p !in chain
    ensures Linked(mem[p := w], first, chain, last)
    decreases |chain|
  {
    if chain != [] { LinkedFrame(mem, mem[first], chain[1..], last, p, w); }
  }

  lemma LinkedPush(mem: map<nat, nat>, first: nat, chain: seq<nat>, last: nat, p: nat)
    requires Linked(mem, first, chain, last) && p !in chain
    ensures Linked(mem[p := first], p, [p] + chain, last)
  {
    LinkedFrame(mem, first, chain, last, p, first);
    assert ([p] + chain)[1..] == chain;
  }

  ghost predicate Partition(a: nat, u: nat, n: nat, live: set<nat>, chain: seq<nat>) {
    && (forall p :: p in live || p in chain <==> IsSlot(a, u, n, p))
    && (forall p :: p in chain ==> p !in live)
  }

  /** One of the first `n` objects. */
  ghost predicate IsSlot(a: nat, u: nat, n: nat, p: nat) { exists k :: 0 <= k < n && p == Slot(a, u, k) }

  lemma SlotIsNew(a: nat, u: nat, n: nat)
    requires u > 0
    ensures !IsSlot(a, u, n, Slot(a, u, n))
  {
    if IsSlot(a, u, n, Slot(a, u, n)) {
      var k: nat :| 0 <= k < n && Slot(a, u, n) == Slot(a, u, k);
      SlotApart(a, u, k, n);
    }
  }

  lemma PartitionGrows(a: nat, u: nat, n: nat, live: set<nat>, chain: seq<nat>)
    requires Partition(a, u, n, live, chain) && u > 0
    ensures Partition(a, u, n + 1, live + {Slot(a, u, n)}, chain) && Slot(a, u, n) !in live && Slot(a, u, n) !in chain
  {
    var s := Slot(a, u, n);
    SlotIsNew(a, u, n);
    forall p ensures IsSlot(a, u, n + 1, p) <==> IsSlot(a, u, n, p) || p == s {
      if IsSlot(a, u, n + 1, p) {
        var k: nat :| 0 <= k < n + 1 && p == Slot(a, u, k);
        assert k < n ==> IsSlot(a, u, n, p);
      }
    }
  }

  lemma PartitionPops(a: nat, u: nat, n: nat, live: set<nat>, chain: seq<nat>)
    requires Partition(a, u, n, live, chain) && chain != [] && Distinct(chain)
    ensures Partition(a, u, n, live + {chain[0]}, chain[1..]) && chain[0] !in live && Distinct(chain[1..])
  {}

  lemma PartitionPushes(a: nat, u: nat, n: nat, live: set<nat>, chain: seq<nat>, p: nat)
    requires Partition(a, u, n, live, chain) && p in live && Distinct(chain)
    ensures Partition(a, u, n, live - {p}, [p] + chain) && p !in chain && Distinct([p] + chain)
  {}

  lemma EvenDouble(y: nat)
    ensures (2 * y) % 2 == 0
  {}

  lemma SlotEven(a: nat, u: nat, n: nat, p: nat)
    requires IsSlot(a, u, n, p) && a > 0
    ensures p % 2 == 0 && p > 0
  {
    var k: nat :| 0 <= k < n && p == Slot(a, u, k);
    EvenDouble(8 * Unit(a, u, k));
  }

  /** The next object that was never handed out, as `first` encodes it: tagged, or 0 at the end. */
  function Bump(a: nat, u: nat, n: nat, max: nat): nat {
    if n == 0 || Slot(a, u, n) + 1 <= max then Slot(a, u, n) + 1 else 0
  }

  /** The tag bit tells whether the chain is empty. */
  lemma TagTells(mem: map<nat, nat>, first: nat, chain: seq<nat>, live: set<nat>, a: nat, u: nat, n: nat, max: nat)
    requires Partition(a, u, n, live, chain) && Linked(mem, first, chain, Bump(a, u, n, max)) && a > 0 && first != 0
    ensures first % 2 == 0 <==> chain != []
  {
    if chain == [] { EvenDouble(8 * Unit(a, u, n)); }
    else {
      assert chain[0] in chain && IsSlot(a, u, n, chain[0]);
      SlotEven(a, u, n, chain[0]);
    }
  }

  /** Stepping the tagged pointer, and the room that is left for the object handed out. */
  lemma BumpNext(base: nat, a: nat, u: nat, n: nat, max: nat)
    requires u <= SLAB_UNITS && max == 16 * (base + SLAB_UNITS - u) && a + u <= base + SLAB_UNITS
    requires Bump(a, u, n, max) != 0
    ensures var next := Bump(a, u, n, max) + 16 * u; Bump(a, u, n + 1, max) == if next > max then 0 else next
    ensures Slot(a, u, n) + 16 * u <= 16 * (base + SLAB_UNITS)
  {
    assert Slot(a, u, n + 1) == Slot(a, u, n) + 16 * u;
  }

  /** Live objects are inside the slab and do not overlap. */
  ghost predicate Placed(base: nat, u: nat, live: set<nat>) {
    && (forall p :: p in live ==> 16 * (base + HEADER_UNITS) <= p && p + 16 * u <= 16 * (base + SLAB_UNITS))
    && (forall p, q :: p in live && q in live && p != q ==> p + 16 * u <= q || q + 16 * u <= p)
  }

  lemma PartitionPlaced(base: nat, a: nat, u: nat, n: nat, live: set<nat>, chain: seq<nat>)
    requires Partition(a, u, n, live, chain) && base + HEADER_UNITS <= a
    requires n > 0 ==> Slot(a, u, n - 1) + 16 * u <= 16 * (base + SLAB_UNITS)
    ensures Placed(base, u, live)
  {
    forall p | p in live ensures 16 * (base + HEADER_UNITS) <= p && p + 16 * u <= 16 * (base + SLAB_UNITS) {
      assert IsSlot(a, u, n, p);
      var k: nat :| 0 <= k < n && p == Slot(a, u, k);
      if k < n - 1 { SlotApart(a, u, k, n - 1); }
    }
    forall p, q | p in live && q in live && p != q ensures p + 16 * u <= q || q + 16 * u <= p {
      assert IsSlot(a, u, n, p) && IsSlot(a, u, n, q);
      var j: nat :| 0 <= j < n && p == Slot(a, u, j);
      var k: nat :| 0 <= k < n && q == Slot(a, u, k);
      if j < k { SlotApart(a, u, j, k); } else { SlotApart(a, u, k, j); }
    }
  }

  class Slab {
    const base: nat        // unit at which the slab starts
    const units: nat       // object size in units
    const start: nat       // unit of the first object
    const max: nat
    var first: nat
    var used: nat
    var mem: map<nat, nat> // the first word of objects
    ghost var n: nat       // objects handed out from the end so far
    ghost var live: set<nat>
    ghost var chain: seq<nat>

    ghost predicate Fixed() {
      && 0 < units <= 32 && base + HEADER_UNITS <= start && start + units <= base + SLAB_UNITS
      && max == 16 * (base + SLAB_UNITS - units)
    }

    /** The chain lists every freed object once and ends in the tagged pointer or 0; `used` counts the
        live objects; all objects handed out so far are live or in the chain. */
    ghost predicate Valid()
      reads this
    {
      && Fixed() && Partition(start, units, n, live, chain) && Distinct(chain)
      && Linked(mem, first, chain, Bump(start, units, n, max))
      && used == |live|
      && (n > 0 ==> Slot(start, units, n - 1) + 16 * units <= 16 * (base + SLAB_UNITS))
    }

    /** `slab_create`. */
    constructor (base: nat, units: nat, rng: nat)
      requires 0 < units <= 32 && rng < 0x1_0000_0000
      ensures Valid() && live == {} && this.base == base && this.units == units
    {
      TotalFits(units);
      this.base, this.units := base, units;
      start := StartUnit(base, units, rng);
      max := 16 * (base + SLAB_UNITS - units);
      first := 16 * StartUnit(base, units, rng) + 1;
      used, mem, n, live, chain := 0, map[], 0, {}, [];
    }

    /** The last freed object is handed out again. */
    method PopObject() returns (p: nat)
      requires Valid() && chain != []
      modifies this
      ensures Valid() && p == old(chain)[0] && p !in old(live) && live == old(live) + {p} && chain == old(chain)[1..]
      ensures n == old(n)
    {
      PartitionPops(start, units, n, live, chain);
      p := first;
      used := used + 1;
      first := mem[p];
      chain := chain[1..];
      live := live + {p};
    }

    /** A fresh object is handed out. */
    method FreshObject() returns (p: nat)
      requires Valid() && chain == [] && first != 0
      modifies this
      ensures Valid() && p == Slot(start, units, old(n)) && p !in old(live) && live == old(live) + {p} && chain == []
      ensures n == old(n) + 1
    {
      PartitionGrows(start, units, n, live, chain);
      BumpNext(base, start, units, n, max);
      p := first - 1;
      used := used + 1;
      first := first + 16 * units;
      if first > max { first := 0; }
      n := n + 1;
      live := live + {p};
    }

    /** `slab_alloc_aux`; a slab with `first == 0` is full and not asked. The last freed object is used
        first, then the next fresh one; the tag bit tells them apart. */
    method Alloc() returns (p: nat)
      requires Valid() && first != 0
      modifies this
      ensures Valid() && p !in old(live) && live == old(live) + {p} && Placed(base, units, live)
      ensures old(chain) != [] ==> p == old(chain)[0] && chain == old(chain)[1..] && n == old(n)
      ensures old(chain) == [] ==> p == Slot(start, units, old(n)) && chain == [] && n == old(n) + 1
    {
      TagTells(mem, first, chain, live, start, units, n, max);
      if first % 2 == 0 { p := PopObject(); } else { p := FreshObject(); }
      PartitionPlaced(base, start, units, n, live, chain);
    }

    /** `slab_free` of an object of this thread; `idle` tells that nothing in the slab is live. */
    method Free(p: nat) returns (idle: bool)
      requires Valid() && p in live
      modifies this
      ensures Valid() && live == old(live) - {p} && chain == [p] + old(chain) && n == old(n)
      ensures idle <==> live == {}
    {
      PartitionPushes(start, units, n, live, chain, p);
      LinkedPush(mem, first, chain, Bump(start, units, n, max), p);
      mem := mem[p := first];
      first := p;
      used := used - 1;
      chain := [p] + chain;
      live := live - {p};
      idle := used == 0;
    }

    /** The program may write to its live objects as it likes. */
    method UserWrite(p: nat, w: nat)
      requires Valid() && p in live
      modifies this`mem
      ensures Valid()
    {
      LinkedFrame(mem, first, chain, Bump(start, units, n, max), p, w);
      mem := mem[p := w];
    }

    /** Alloc undoes Free: the object just freed is the next one handed out. */
    method Recycle(p: nat) returns (q: nat)
      requires Valid() && p in live
      modifies this
      ensures Valid() && q == p && live == old(live) && chain == old(chain) && n == old(n)
    {
      var idle := Free(p);
      assert p in chain && IsSlot(start, units, n, p);
      SlotEven(start, units, n, p);
      q := Alloc();
    }
  }

  /** An object past the first is handed out exactly if it ends before the end of the slab: one that would
      end at it is never used. */
  lemma FreshIff(base: nat, a: nat, u: nat, n: nat)
    requires 0 < u <= 32 && n > 0
    ensures Bump(a, u, n, 16 * (base + SLAB_UNITS - u)) != 0 <==> Slot(a, u, n) + 16 * u < 16 * (base + SLAB_UNITS)
  {}

  /** With 64-byte objects the last of the objects counted in `sltotal` is lost to that comparison. */
  lemma LastSlotLost(base: nat)
    ensures var n := TotalUnits(4) / 4;
            && Slot(StartUnit(base, 4, 0), 4, n - 1) + 64 == 16 * (base + SLAB_UNITS)
            && Bump(StartUnit(base, 4, 0), 4, n - 1, 16 * (base + SLAB_UNITS - 4)) == 0
  {
    assert TotalUnits(4) == 8184;
    UnitClosed(base + 8, 4, 2045);
  }
}
