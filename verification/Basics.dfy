/** An optional value. */
module Options {
  datatype Option<T> = None | Some(value: T)
}

/** Lookups in sets of keys: `--upper_bound(x)` and the lowest bit of a mask. */
module OrderedKeys {

  predicate IsFloor(keys: set<nat>, x: nat, k: nat) {
    k in keys && k <= x && forall j :: j in keys && j <= x ==> j <= k
  }

  lemma {:induction false} FindFloor(keys: set<nat>, x: nat, k: nat) returns (f: nat)
    requires k in keys && k <= x
    ensures IsFloor(keys, x, f)
    decreases x - k
  {
    f := k;
    if j :| j in keys && k < j <= x { f := FindFloor(keys, x, j); }
  }

  /** The largest key not above `x`. */
  function Floor(keys: set<nat>, x: nat): (k: nat)
    requires exists k :: k in keys && k <= x
    ensures k in keys && k <= x
    ensures forall j :: j in keys && j <= x ==> j <= k
  {
    assert exists k :: k in keys && IsFloor(keys, x, k) by {
      var some :| some in keys && some <= x;
      var f := FindFloor(keys, x, some);
    }
    var k :| k in keys && IsFloor(keys, x, k);
    k
  }

  predicate IsLowest(keys: set<nat>, n: nat) { n in keys && forall k :: k in keys ==> n <= k }

  lemma {:induction false} FindLowest(keys: set<nat>, k: nat) returns (n: nat)
    requires k in keys
    ensures IsLowest(keys, n)
    decreases k
  {
    n := k;
    if j :| j in keys && j < k { n := FindLowest(keys, j); }
  }

  function Lowest(keys: set<nat>): (n: nat)
    requires keys != {}
    ensures n in keys && forall k :: k in keys ==> n <= k
  {
    assert exists n :: n in keys && IsLowest(keys, n) by {
      var some :| some in keys;
      var n := FindLowest(keys, some);
    }
    var n :| n in keys && IsLowest(keys, n);
    n
  }
}

/** `std::sort`. For a strict total order the sorted sequence is determined by the elements alone. */
module Sorting {

  ghost predicate Asymmetric<T(!new)>(less: (T, T) -> bool) { forall x, y :: less(x, y) ==> !less(y, x) }

  ghost predicate TotalOrder<T(!new)>(less: (T, T) -> bool) {
    && Asymmetric(less) && (forall x, y :: x == y || less(x, y) || less(y, x))
    && (forall x, y, z :: less(x, y) && less(y, z) ==> less(x, z))
  }

  predicate Ordered<T>(less: (T, T) -> bool, s: seq<T>) { forall i :: 0 < i < |s| ==> !less(s[i], s[i - 1]) }

  function Insert<T(!new)>(less: (T, T) -> bool, x: T, s: seq<T>): (r: seq<T>)
    requires Asymmetric(less) && Ordered(less, s)
    ensures Ordered(less, r) && r != [] && (r[0] == x || (s != [] && r[0] == s[0]))
  {
    if s == [] || !less(s[0], x) then [x] + s else [s[0]] + Insert(less, x, s[1..])
  }

  function Sort<T(!new)>(less: (T, T) -> bool, s: seq<T>): (r: seq<T>)
    requires Asymmetric(less)
    ensures Ordered(less, r)
  {
    if s == [] then [] else Insert(less, s[0], Sort(less, s[1..]))
  }

  lemma {:induction false} InsertContents<T(!new)>(less: (T, T) -> bool, x: T, s: seq<T>)
    requires Asymmetric(less) && Ordered(less, s)
    ensures multiset(Insert(less, x, s)) == multiset{x} + multiset(s)
  {
    if s != [] && less(s[0], x) {
      assert s == [s[0]] + s[1..];
      InsertContents(less, x, s[1..]);
    }
  }

  lemma {:induction false} SortContents<T(!new)>(less: (T, T) -> bool, s: seq<T>)
    requires Asymmetric(less)
    ensures multiset(Sort(less, s)) == multiset(s) && |Sort(less, s)| == |s|
  {
    if s != [] {
      assert s == [s[0]] + s[1..];
      SortContents(less, s[1..]);
      InsertContents(less, s[0], Sort(less, s[1..]));
    }
    assert |multiset(Sort(less, s))| == |multiset(s)|;
  }

  /** Sorting leaves a sequence in order as it is. */
  lemma {:induction false} SortFixes<T(!new)>(less: (T, T) -> bool, s: seq<T>)
    requires Asymmetric(less) && Ordered(less, s)
    ensures Sort(less, s) == s
  {
    if s != [] {
      SortFixes(less, s[1..]);
      if |s| > 1 { assert !less(s[1], s[0]); }
    }
  }

  lemma {:induction false} HeadLeast<T(!new)>(less: (T, T) -> bool, s: seq<T>, i: nat)
    requires TotalOrder(less) && Ordered(less, s) && i < |s|
    ensures s[0] == s[i] || less(s[0], s[i])
  {
    if i > 0 {
      HeadLeast(less, s, i - 1);
      assert !less(s[i], s[i - 1]);
    }
  }

  lemma TailContents<T>(s: seq<T>)
    requires s != []
    ensures multiset(s[1..]) == multiset(s) - multiset{s[0]}
  {
    assert s == [s[0]] + s[1..];
  }

  lemma SameHead<T(!new)>(less: (T, T) -> bool, a: seq<T>, b: seq<T>)
    requires TotalOrder(less) && Ordered(less, a) && Ordered(less, b) && multiset(a) == multiset(b) && a != []
    requires b != []
    ensures a[0] == b[0]
  {
    assert a[0] in multiset(b) && b[0] in multiset(a);
    var i :| 0 <= i < |b| && b[i] == a[0];
    var j :| 0 <= j < |a| && a[j] == b[0];
    HeadLeast(less, b, i);
    HeadLeast(less, a, j);
  }

  /** Two ordered sequences with the same elements are the same. */
  lemma {:induction false} OrderedUnique<T(!new)>(less: (T, T) -> bool, a: seq<T>, b: seq<T>)
    requires TotalOrder(less) && Ordered(less, a) && Ordered(less, b) && multiset(a) == multiset(b)
    ensures a == b
  {
    assert |multiset(a)| == |a| && |multiset(b)| == |b|;
    if a != [] {
      SameHead(less, a, b);
      TailContents(a);
      TailContents(b);
      OrderedUnique(less, a[1..], b[1..]);
    }
  }

  lemma SortUnique<T(!new)>(less: (T, T) -> bool, a: seq<T>, b: seq<T>)
    requires TotalOrder(less) && multiset(a) == multiset(b)
    ensures Sort(less, a) == Sort(less, b)
  {
    SortContents(less, a);
    SortContents(less, b);
    OrderedUnique(less, Sort(less, a), Sort(less, b));
  }
}
