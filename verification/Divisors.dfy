/** Remainders and common divisors, for the trip-count arithmetic. */
module Divisors {
  lemma MulAtLeast(d: int, n: int)
    requires d >= 1 && n > 0
    ensures d * n >= n
  {}

  lemma Distribute(n: int, p: int, q: int)
    ensures n * (p + q) == n * p + n * q && n * (p - q) == n * p - n * q
  {}

  lemma Associate(n: int, p: int, q: int)
    ensures n * p * q == n * (p * q)
  {}

  lemma ModIs(a: nat, n: nat, q: nat, r: nat)
    requires n > 0 && a == n * q + r && r < n
    ensures a % n == r
  {
    var p := a / n;
    assert a == n * p + a % n;
    Distribute(n, p, q);
    if p > q { MulAtLeast(p - q, n); } else if p < q { MulAtLeast(q - p, n); Distribute(n, q, p); }
  }

  lemma ModSucc(a: nat, n: nat)
    requires n > 0
    ensures (a + 1) % n == if a % n + 1 == n then 0 else a % n + 1
  {
    var q := a / n;
    assert a == n * q + a % n;
    if a % n + 1 == n {
      assert n * (q + 1) == n * q + n;
      ModIs(a + 1, n, q + 1, 0);
    } else {
      ModIs(a + 1, n, q, a % n + 1);
    }
  }

  function Times(d: nat, q: nat): nat { d * q }

  ghost predicate Divides(d: nat, a: nat) { exists q :: a == Times(d, q) }

  lemma DividesMod0(d: nat, a: nat)
    requires d > 0
    ensures Divides(d, a) <==> a % d == 0
  {
    if Divides(d, a) {
      var q: nat :| a == Times(d, q);
      ModIs(a, d, q, 0);
    }
    if a % d == 0 { assert a == Times(d, a / d); }
  }

  lemma DividesTimes(d: nat, a: nat, t: nat)
    requires Divides(d, a)
    ensures Divides(d, Times(a, t))
  {
    var p: nat :| a == Times(d, p);
    Associate(d, p, t);
    assert Times(a, t) == Times(d, Times(p, t));
  }

  lemma DividesSum(d: nat, a: nat, b: nat)
    requires Divides(d, a) && Divides(d, b)
    ensures Divides(d, a + b)
  {
    var p: nat :| a == Times(d, p);
    var q: nat :| b == Times(d, q);
    Distribute(d, p, q);
    assert a + b == Times(d, p + q);
  }

  lemma DividesDifference(d: nat, a: nat, b: nat)
    requires Divides(d, a) && Divides(d, b) && a >= b && d > 0
    ensures Divides(d, a - b)
  {
    var p: nat :| a == Times(d, p);
    var q: nat :| b == Times(d, q);
    Distribute(d, p, q);
    if p < q { MulAtLeast(q - p, d); Distribute(d, q, p); }
    assert a - b == Times(d, p - q);
  }

  lemma DividesTrans(d: nat, a: nat, b: nat)
    requires Divides(d, a) && Divides(a, b)
    ensures Divides(d, b)
  {
    var q: nat :| b == Times(a, q);
    DividesTimes(d, a, q);
  }

  lemma DividesRest(d: nat, a: nat, b: nat)
    requires Divides(d, a) && Divides(d, b) && b > 0 && d > 0
    ensures Divides(d, a % b)
  {
    DividesTimes(d, b, a / b);
    assert a == Times(b, a / b) + a % b;
    DividesDifference(d, a, Times(b, a / b));
  }

  /** Euclid's algorithm. */
  function Gcd(a: nat, b: nat): nat
    decreases b
  {
    if b == 0 then a else Gcd(b, a % b)
  }

  lemma DividesSelf(a: nat)
    ensures Divides(a, a) && Divides(a, 0)
  {
    assert a == Times(a, 1) && 0 == Times(a, 0);
  }

  lemma DividesWhole(d: nat, a: nat, b: nat)
    requires b > 0 && Divides(d, b) && Divides(d, a % b)
    ensures Divides(d, a)
  {
    DividesTimes(d, b, a / b);
    DividesSum(d, Times(b, a / b), a % b);
    assert a == Times(b, a / b) + a % b;
  }

  /** Every common divisor divides the greatest one. */
  lemma {:induction false} GcdGreatest(d: nat, a: nat, b: nat)
    requires d > 0 && Divides(d, a) && Divides(d, b)
    ensures Divides(d, Gcd(a, b))
    decreases b
  {
    if b != 0 {
      DividesRest(d, a, b);
      GcdGreatest(d, b, a % b);
    }
  }

  lemma {:induction false} GcdDivides(a: nat, b: nat)
    requires a > 0 || b > 0
    ensures Gcd(a, b) > 0 && Divides(Gcd(a, b), a) && Divides(Gcd(a, b), b)
    decreases b
  {
    if b == 0 {
      DividesSelf(a);
    } else {
      GcdDivides(b, a % b);
      DividesWhole(Gcd(b, a % b), a, b);
    }
  }
}
