/** Words as natural numbers and their bits: the bitwise operations, shifts, and words put
    together from a low and a high part. */
module Bits {
  import opened Arith

  predicate Bit(x: nat, b: nat)
    decreases b
  {
    if b == 0 then x % 2 == 1 else Bit(x / 2, b - 1)
  }

  function Digit(b: bool): (d: nat)
    ensures d <= 1 && (b <==> d == 1)
  {
    if b then 1 else 0
  }

  function Or(x: nat, y: nat): (z: nat)
    decreases x + y
  {
    if x == 0 && y == 0 then 0 else Digit(x % 2 == 1 || y % 2 == 1) + 2 * Or(x / 2, y / 2)
  }

  function And(x: nat, y: nat): (z: nat)
    decreases x
  {
    if x == 0 then 0 else Digit(x % 2 == 1 && y % 2 == 1) + 2 * And(x / 2, y / 2)
  }

  /** `x & ~y`. */
  function AndNot(x: nat, y: nat): (z: nat)
    decreases x
  {
    if x == 0 then 0 else Digit(x % 2 == 1 && y % 2 == 0) + 2 * AndNot(x / 2, y / 2)
  }

  lemma {:induction false} NoBit(b: nat)
    ensures !Bit(0, b)
  {
    if b > 0 { NoBit(b - 1); }
  }

  lemma {:induction false} BitOr(x: nat, y: nat, b: nat)
    ensures Bit(Or(x, y), b) <==> Bit(x, b) || Bit(y, b)
    decreases b
  {
    if b > 0 { BitOr(x / 2, y / 2, b - 1); }
  }

  lemma {:induction false} BitAnd(x: nat, y: nat, b: nat)
    ensures Bit(And(x, y), b) <==> Bit(x, b) && Bit(y, b)
    decreases b
  {
    NoBit(b);
    if b > 0 { BitAnd(x / 2, y / 2, b - 1); }
  }

  lemma {:induction false} BitAndNot(x: nat, y: nat, b: nat)
    ensures Bit(AndNot(x, y), b) <==> Bit(x, b) && !Bit(y, b)
    decreases b
  {
    NoBit(b);
    if b > 0 { BitAndNot(x / 2, y / 2, b - 1); }
  }

  /** Bits of a word moved up by `n`. */
  lemma {:induction false} BitScaled(x: nat, n: nat, b: nat)
    ensures Bit(x * Power(n), b) <==> b >= n && Bit(x, b - n)
    decreases n
  {
    if n > 0 {
      var y := x * Power(n - 1);
      assert x * Power(n) == 2 * y;
      if b > 0 {
        BitScaled(x, n - 1, b - 1);
      }
    }
  }

  lemma {:induction false} BitOnes(n: nat, b: nat)
    ensures Bit(Power(n) - 1, b) <==> b < n
    decreases n
  {
    if n == 0 {
      NoBit(b);
    } else if b > 0 {
      assert (Power(n) - 1) / 2 == Power(n - 1) - 1;
      BitOnes(n - 1, b - 1);
    }
  }

  lemma {:induction false} DoubleDivMod(x: nat, p: nat)
    requires p > 0
    ensures x / (2 * p) == (x / 2) / p && x % (2 * p) == x % 2 + 2 * ((x / 2) % p)
  {
    var h := x / 2;
    var q, r := h / p, h % p;
    assert h == q * p + r;
    assert x == q * (2 * p) + (x % 2 + 2 * r);
    DivModIs(x, 2 * p, q, x % 2 + 2 * r);
  }

  function Join(low: nat, k: nat, high: nat): (x: nat)
  {
    low + Power(k) * high
  }

  lemma {:induction false} JoinHalves(low: nat, k: nat, high: nat)
    requires k > 0
    ensures Join(low, k, high) % 2 == low % 2
    ensures Join(low, k, high) / 2 == Join(low / 2, k - 1, high)
  {
    var t := Power(k - 1) * high;
    assert Power(k) * high == 2 * t;
  }

  /** AND works on the low `k` bits and on the rest separately. */
  lemma {:induction false} AndSplit(r: nat, q: nat, low: nat, high: nat, k: nat)
    requires r < Power(k) && low < Power(k)
    ensures And(Join(r, k, q), Join(low, k, high)) == Join(And(r, low), k, And(q, high))
    decreases k
  {
    var x, y := Join(r, k, q), Join(low, k, high);
    AndStep(x, y);
    AndStep(r, low);
    if k > 0 {
      JoinHalves(r, k, q);
      JoinHalves(low, k, high);
      AndSplit(r / 2, q, low / 2, high, k - 1);
      JoinDouble(And(r / 2, low / 2), Digit(r % 2 == 1 && low % 2 == 1), k, And(q, high));
    }
  }

  lemma {:induction false} JoinDouble(low: nat, d: nat, k: nat, high: nat)
    requires k > 0
    ensures d + 2 * Join(low, k - 1, high) == Join(d + 2 * low, k, high)
  {
    var t := Power(k - 1) * high;
    assert Power(k) * high == 2 * t;
  }

  lemma {:induction false} AndStep(x: nat, y: nat)
    ensures And(x, y) == Digit(x % 2 == 1 && y % 2 == 1) + 2 * And(x / 2, y / 2)
  {
  }

  lemma {:induction false} OddHalf(p: nat)
    requires p > 0
    ensures (2 * p - 1) % 2 == 1 && (2 * p - 1) / 2 == p - 1
  {
  }

  lemma {:induction false} AndOnes(x: nat, k: nat)
    requires x < Power(k)
    ensures And(x, Power(k) - 1) == x
    decreases k
  {
    AndStep(x, Power(k) - 1);
    if k > 0 {
      OddHalf(Power(k - 1));
      AndOnes(x / 2, k - 1);
    }
  }

  lemma {:induction false} AndZero(x: nat)
    ensures And(x, 0) == 0
  {
    if x > 0 { AndZero(x / 2); }
  }

  /** The `w` low bits of a word, and the rest. */
  function Low(x: nat, w: nat): (r: nat)
    ensures r < Power(w)
  {
    x % Power(w)
  }

  function High(x: nat, w: nat): (q: nat)
  {
    DivNat(x, Power(w));
    x / Power(w)
  }

  lemma {:induction false} JoinLowHigh(x: nat, w: nat)
    ensures x == Join(Low(x, w), w, High(x, w))
  {
  }

  lemma {:induction false} LowHighJoin(low: nat, w: nat, high: nat)
    requires low < Power(w)
    ensures Low(Join(low, w, high), w) == low && High(Join(low, w, high), w) == high
  {
    DivModIs(Join(low, w, high), Power(w), high, low);
  }

  lemma {:induction false} JoinAssoc(a: nat, b: nat, z: nat, w: nat)
    ensures Join(a, w, Join(b, w, z)) == Join(Join(a, w, b), 2 * w, z)
  {
    var p := Power(w);
    PowerAdds(w, w);
    assert p * (b + p * z) == p * b + p * p * z;
  }

  lemma {:induction false} MulBelow(p: nat, b: nat)
    requires b < p
    ensures p * b + p <= p * p
  {
    var c := p - b - 1;
    assert p * p == p * b + p + p * c;
  }

  lemma {:induction false} JoinSmall(a: nat, b: nat, w: nat)
    requires a < Power(w) && b < Power(w)
    ensures Join(a, w, b) < Power(2 * w)
  {
    PowerAdds(w, w);
    MulBelow(Power(w), b);
  }

  lemma {:induction false} AndLowOnes(a: nat, b: nat, w: nat)
    requires a < Power(w)
    ensures And(Join(a, w, b), Power(w) - 1) == a
  {
    assert Power(w) - 1 == Join(Power(w) - 1, w, 0);
    AndSplit(a, b, Power(w) - 1, 0, w);
    AndOnes(a, w);
    AndZero(b);
  }

  lemma {:induction false} AndAtMost(x: nat, y: nat)
    ensures And(x, y) <= y
    decreases x
  {
    if x > 0 { AndAtMost(x / 2, y / 2); }
  }

  lemma {:induction false} BitHigh(x: nat, b: nat)
    ensures Low(x, 1) == Digit(Bit(x, 0)) && (Bit(High(x, 1), b) <==> Bit(x, b + 1))
  {
    assert Power(1) == 2;
  }

  /** Bits `lo` to `hi - 1`, and nothing else. */
  ghost predicate Range(m: nat, lo: int, hi: int)
  {
    forall b: nat :: Bit(m, b) <==> lo <= b < hi
  }

  lemma {:induction false} OnesRange(w: nat)
    ensures Range(Power(w) - 1, 0, w)
  {
    var m := Power(w) - 1;
    forall b: nat ensures Bit(m, b) <==> 0 <= b < w { BitOnes(w, b); }
  }

  lemma {:induction false} RemoveLow(m: nat, k: nat, lo: int, mid: int, hi: int)
    requires lo <= mid <= hi && Range(m, lo, hi) && Range(k, lo, mid)
    ensures Range(AndNot(m, k), mid, hi)
  {
    forall b: nat ensures Bit(AndNot(m, k), b) <==> mid <= b < hi { BitAndNot(m, k, b); }
  }

  lemma {:induction false} RemoveHigh(m: nat, k: nat, lo: int, mid: int, hi: int)
    requires lo <= mid <= hi && Range(m, lo, hi) && Range(k, mid, hi)
    ensures Range(AndNot(m, k), lo, mid)
  {
    forall b: nat ensures Bit(AndNot(m, k), b) <==> lo <= b < mid { BitAndNot(m, k, b); }
  }

  lemma {:induction false} BitLow(x: nat, n: nat, b: nat)
    ensures Bit(Low(x, n), b) <==> b < n && Bit(x, b)
    decreases n
  {
    if n == 0 {
      NoBit(b);
    } else {
      DoubleDivMod(x, Power(n - 1));
      if b > 0 { BitLow(x / 2, n - 1, b - 1); }
    }
  }

  lemma {:induction false} BitShiftRight(x: nat, n: nat, b: nat)
    ensures Bit(High(x, n), b) <==> Bit(x, b + n)
    decreases n
  {
    if n > 0 {
      DoubleDivMod(x, Power(n - 1));
      BitShiftRight(x / 2, n - 1, b);
    }
  }
}
