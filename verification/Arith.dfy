/** Numbers and sequences of them, shared by several modules: word sizes, powers of two,
    quotients, zeros, distinct elements. */
module Arith {

  /** Number of values of a 64-bit and of a 32-bit word. */
  const WORD: nat := 0x1_0000_0000_0000_0000
  const WORD32: nat := 0x1_0000_0000

  function Min(x: int, y: int): (z: int)
  {
    if x < y then x else y
  }

  function Max(x: int, y: int): (z: int)
  {
    if x < y then y else x
  }

  function Zeros(n: nat): (z: seq<nat>)
    ensures |z| == n && forall i :: 0 <= i < n ==> z[i] == 0
  {
    seq(n, _ => 0)
  }

  predicate Distinct<T(==)>(s: seq<T>)
  {
    forall i, j :: 0 <= i < j < |s| ==> s[i] != s[j]
  }

  /** A quotient and a remainder in range are the quotient and the remainder. */
  lemma {:induction false} DivModIs(x: nat, d: nat, q: nat, r: nat)
    requires r < d && x == q * d + r
    ensures x / d == q && x % d == r
  {
    var p := x / d;
    assert p < q ==> (p + 1) * d <= q * d;
    assert q < p ==> (q + 1) * d <= p * d;
  }

  function Power(n: nat): (p: nat)
    ensures p > 0
  {
    if n == 0 then 1 else 2 * Power(n - 1)
  }

  lemma {:induction false} PowerAdds(m: nat, n: nat)
    ensures Power(m + n) == Power(m) * Power(n)
    decreases m
  {
    if m > 0 {
      PowerAdds(m - 1, n);
      assert Power(m) * Power(n) == 2 * (Power(m - 1) * Power(n));
    }
  }

  lemma {:induction false} DivNat(x: nat, p: nat)
    requires p > 0
    ensures x / p >= 0
  {
  }

  lemma {:induction false} PowersOfTwo()
    ensures Power(1) == 2 && Power(2) == 4 && Power(4) == 16 && Power(5) == 32 && Power(8) == 256
    ensures Power(16) == 65536 && Power(17) == 131072 && Power(32) == WORD32
  {
    assert Power(2) == 4;
    PowerAdds(2, 2);
    PowerAdds(4, 4);
    PowerAdds(8, 8);
    PowerAdds(16, 16);
  }

  lemma {:induction false} SignTimes(d: int, n: nat)
    ensures d >= 0 ==> d * n >= 0
    ensures n > 0 ==> (d * n > 0 <==> d > 0)
  {
  }

  /** Multiplying keeps the order. */
  lemma {:induction false} LessTimes(x: int, y: int, n: nat)
    ensures x <= y ==> x * n <= y * n
    ensures n > 0 ==> (x * n < y * n <==> x < y)
  {
    assert (y - x) * n == y * n - x * n;
    SignTimes(y - x, n);
  }

  /** Dividing keeps the order. */
  lemma {:induction false} DivOrdered(a: nat, b: nat, n: nat)
    requires a <= b && n > 0
    ensures a / n <= b / n
  {
    var p, q := a / n, b / n;
    assert a == p * n + a % n && b == q * n + b % n;
    if q < p { LessTimes(q + 1, p, n); }
  }

  lemma {:induction false} Distribute(x: int, y: int, n: int)
    ensures (x + y) * n == x * n + y * n
  {
  }

  lemma {:induction false} Regroup(x: int, y: int, z: int)
    ensures x * (y * z) == (x * y) * z
  {
  }

  lemma {:induction false} Products(x: nat, y: nat)
    ensures x * y >= 0 && (x > 0 && y > 0 ==> x * y > 0 && x * y >= y)
  {
    if x > 0 { LessTimes(1, x, y); }
  }

  lemma {:induction false} Mixed(u: nat, v: nat, n: nat, m: nat, r: nat)
    requires v < n && r < m
    ensures 0 <= v * m + r < m * n && (u * n + v) * m + r == u * (m * n) + (v * m + r)
  {
    LessTimes(v + 1, n, m);
    Distribute(v, 1, m);
    Distribute(u * n, v, m);
    Regroup(u, n, m);
    Products(v, m);
    assert n * m == m * n;
  }

  lemma {:induction false} DivTwice(a: nat, m: nat, n: nat)
    requires m > 0 && n > 0
    ensures m * n > 0 && a / (m * n) == (a / m) / n
  {
    Products(m, n);
    var q, r := DivMod(a, m);
    var u, v := DivMod(q, n);
    QuotientOf(u, v, n, m, r, q, a);
  }

  lemma {:induction false} DivMod(a: nat, m: nat) returns (q: nat, r: nat)
    requires m > 0
    ensures q == a / m && r == a % m && r < m && a == q * m + r
  {
    DivNat(a, m);
    q, r := a / m, a % m;
  }

  lemma {:induction false} QuotientOf(u: nat, v: nat, n: nat, m: nat, r: nat, q: nat, a: nat)
    requires v < n && r < m && m * n > 0 && q == u * n + v && a == q * m + r
    ensures a / (m * n) == u
  {
    Mixed(u, v, n, m, r);
    DivModIs(a, m * n, u, v * m + r);
  }
}
