/** The 32-bit masks with which Callgrind records the parts of a cache line that were used:
    the bit counter, and the tables giving the mask of an access. */
module UseMask {
  import opened Arith
  import opened Bits

  // ------------------------------------------------------------------ counting bits

  /** The constants of the bit counter: `n` times `w` ones under `w` zeros. */
  function Mask(w: nat, n: nat): (m: nat)
  {
    if n == 0 then 0 else Join(Power(w) - 1, 2 * w, Mask(w, n - 1))
  }

  lemma {:induction false} AndMask(a: nat, b: nat, z: nat, w: nat, n: nat)
    requires n > 0 && a < Power(w) && b < Power(w)
    ensures And(Join(a, w, Join(b, w, z)), Mask(w, n)) == Join(a, 2 * w, And(z, Mask(w, n - 1)))
  {
    JoinAssoc(a, b, z, w);
    JoinSmall(a, b, w);
    JoinSmall(Power(w) - 1, 0, w);
    AndSplit(Join(a, w, b), z, Power(w) - 1, Mask(w, n - 1), 2 * w);
    AndLowOnes(a, b, w);
  }

  /** One line of the bit counter: add neighbouring fields of `w` bits. */
  function Stage(x: nat, w: nat, mask: nat): (r: nat)
  {
    And(High(x, w), mask) + And(x, mask)
  }

  /** Sum of the `n` lowest fields of `w` bits. */
  function Sum(x: nat, w: nat, n: nat): (s: nat)
    decreases n
  {
    if n == 0 then 0 else Low(x, w) + Sum(High(x, w), w, n - 1)
  }

  lemma {:induction false} StageSplit(x: nat, w: nat, n: nat)
    requires n > 0
    ensures var q := High(x, w);
            Stage(x, w, Mask(w, n))
            == Join(Low(x, w) + Low(q, w), 2 * w, Stage(High(q, w), w, Mask(w, n - 1)))
  {
    var q := High(x, w);
    var z := High(q, w);
    JoinLowHigh(x, w);
    JoinLowHigh(q, w);
    JoinLowHigh(z, w);
    AndMask(Low(x, w), Low(q, w), z, w, n);
    AndMask(Low(q, w), Low(z, w), High(z, w), w, n);
    JoinSum(Low(x, w), Low(q, w), 2 * w, And(z, Mask(w, n - 1)), And(High(z, w), Mask(w, n - 1)));
  }

  lemma {:induction false} JoinSum(a: nat, b: nat, k: nat, y: nat, z: nat)
    ensures Join(a, k, y) + Join(b, k, z) == Join(a + b, k, z + y)
  {
  }

  /** A stage turns twice as many fields into fields of twice the size with the same sum. */
  lemma {:induction false} StageKeepsSum(x: nat, w: nat, n: nat)
    requires w > 0
    ensures Sum(Stage(x, w, Mask(w, n)), 2 * w, n) == Sum(x, w, 2 * n)
    decreases n
  {
    if n > 0 {
      var q := High(x, w);
      var z := High(q, w);
      StageSplit(x, w, n);
      StageKeepsSum(z, w, n - 1);
      SumFits(Low(x, w), Low(q, w), w);
      LowHighJoin(Low(x, w) + Low(q, w), 2 * w, Stage(z, w, Mask(w, n - 1)));
      assert Sum(x, w, 2 * n) == Low(x, w) + Sum(q, w, 2 * n - 1);
    }
  }

  lemma {:induction false} SumFits(a: nat, b: nat, w: nat)
    requires w > 0 && a < Power(w) && b < Power(w)
    ensures a + b < Power(2 * w)
  {
    var p := Power(w);
    PowerAdds(w, w);
    assert p >= 2;
    assert p * p >= 2 * p;
  }

  function BitSet(x: nat): (s: set<nat>)
  {
    BitsBelow(x, 32)
  }

  function BitsBelow(x: nat, n: nat): (s: set<nat>)
  {
    set b | 0 <= b < n && Bit(x, b)
  }

  lemma {:induction false} CountTop(x: nat, n: nat)
    ensures |BitsBelow(x, n + 1)| == |BitsBelow(x, n)| + Digit(Bit(x, n))
  {
    if Bit(x, n) {
      assert BitsBelow(x, n + 1) == BitsBelow(x, n) + {n};
    } else {
      assert BitsBelow(x, n + 1) == BitsBelow(x, n);
    }
  }

  lemma {:induction false} CountShifted(x: nat, n: nat)
    ensures |BitsBelow(x, n + 1)| == Digit(Bit(x, 0)) + |BitsBelow(High(x, 1), n)|
    decreases n
  {
    CountTop(x, n);
    if n == 0 {
      assert BitsBelow(x, 0) == {} && BitsBelow(High(x, 1), 0) == {};
    } else {
      CountShifted(x, n - 1);
      CountTop(High(x, 1), n - 1);
      BitHigh(x, n - 1);
    }
  }

  /** With fields of one bit, the sum is the number of bits set. */
  lemma {:induction false} SumOfBits(x: nat, n: nat)
    ensures Sum(x, 1, n) == |BitsBelow(x, n)|
    decreases n
  {
    if n == 0 {
      assert BitsBelow(x, 0) == {};
    } else {
      SumOfBits(High(x, 1), n - 1);
      CountShifted(x, n - 1);
      BitHigh(x, 0);
    }
  }

  lemma {:induction false} MaskTimes(w: nat, n: nat)
    ensures (Power(w) + 1) * Mask(w, n) + 1 == Power(2 * w * n)
    decreases n
  {
    if n > 0 {
      var p, m := Power(w), Mask(w, n - 1);
      MaskTimes(w, n - 1);
      PowerAdds(w, w);
      PowerAdds(2 * w, 2 * w * (n - 1));
      assert 2 * w + 2 * w * (n - 1) == 2 * w * n;
      TimesMask(p, m);
    }
  }

  lemma {:induction false} TimesMask(p: nat, m: nat)
    requires p > 0
    ensures (p + 1) * (p - 1 + p * p * m) + 1 == p * p * ((p + 1) * m + 1)
  {
    var t := p * p * m;
    assert (p + 1) * (p - 1 + t) == p * p - 1 + (p + 1) * t;
    assert (p + 1) * t == p * p * ((p + 1) * m);
  }

  lemma {:induction false} MaskIs(w: nat, n: nat, m: nat)
    requires 2 * w * n == 32 && (Power(w) + 1) * m + 1 == WORD32
    ensures Mask(w, n) == m
  {
    PowersOfTwo();
    MaskTimes(w, n);
    SameFactor(Power(w) + 1, Mask(w, n), m);
  }

  lemma {:induction false} SameFactor(p: nat, x: nat, y: nat)
    requires p > 0 && p * x == p * y
    ensures x == y
  {
    assert p * (x - y) == 0;
  }

  lemma {:induction false} StageFits(c: nat, w: nat, mask: nat)
    ensures Stage(c, w, mask) <= 2 * mask
  {
    AndAtMost(High(c, w), mask);
    AndAtMost(c, mask);
  }

  /** One line of the bit counter, in 32-bit arithmetic. */
  method AddFields(c: nat, w: nat, mask: nat) returns (r: nat)
    requires mask <= 0x55555555
    ensures r == Stage(c, w, mask) <= 2 * mask
  {
    var sum := Stage(c, w, mask);
    StageFits(c, w, mask);
    r := sum % WORD32;
  }

  lemma {:induction false} WordIs(x: nat)
    requires x < WORD32
    ensures Sum(x, 32, 1) == x
  {
    PowersOfTwo();
    DivModIs(x, WORD32, 0, x);
  }

  /** The logarithmic bit counter: adds fields of 1, 2, 4, 8 and 16 bits. */
  method CountBits(bits: nat) returns (c: nat)
    ensures c == |BitSet(bits)|
  {
    hide Power, Mask, Stage, Sum, BitsBelow;
    PowersOfTwo();
    MaskIs(1, 16, 0x55555555);
    MaskIs(2, 8, 0x33333333);
    MaskIs(4, 4, 0x0f0f0f0f);
    MaskIs(8, 2, 0x00ff00ff);
    MaskIs(16, 1, 0x0000ffff);
    SumOfBits(bits, 32);
    c := bits;
    StageKeepsSum(c, 1, 16);
    c := AddFields(c, 1, 0x55555555);
    StageKeepsSum(c, 2, 8);
    c := AddFields(c, 2, 0x33333333);
    StageKeepsSum(c, 4, 4);
    c := AddFields(c, 4, 0x0f0f0f0f);
    StageKeepsSum(c, 8, 2);
    c := AddFields(c, 8, 0x00ff00ff);
    StageKeepsSum(c, 16, 1);
    c := AddFields(c, 16, 0x0000ffff);
    WordIs(c);
  }

  // ------------------------------------------------------------------ masks of an access

  /** Does byte `x` of a line of `lineSize` bytes share a byte with the `b`-th of the 32
      equal parts of the line? */
  predicate InPart(x: nat, b: nat, lineSize: nat)
  {
    b * lineSize < (x + 1) * 32 && x * 32 < (b + 1) * lineSize
  }

  /** The parts from byte `i` on, and those up to byte `j`. */
  ghost predicate StartMask(m: nat, i: nat, lineSize: nat)
  {
    forall b :: 0 <= b < 32 ==> (Bit(m, b) <==> i * 32 < (b + 1) * lineSize)
  }

  ghost predicate EndMask(m: nat, j: nat, lineSize: nat)
  {
    forall b :: 0 <= b < 32 ==> (Bit(m, b) <==> b * lineSize < (j + 1) * 32)
  }

  /** ANDing the two gives the parts that an access to bytes `i` to `j` touches. */
  lemma {:induction false} MaskOfAccess(s: nat, e: nat, i: nat, j: nat, lineSize: nat, b: nat)
    requires i <= j && b < 32 && StartMask(s, i, lineSize) && EndMask(e, j, lineSize)
    ensures Bit(And(s, e), b) <==> exists x :: i <= x <= j && InPart(x, b, lineSize)
  {
    BitAnd(s, e, b);
    if Bit(s, b) && Bit(e, b) {
      var x := b * lineSize / 32;
      if x < i {
        assert InPart(i, b, lineSize);
      } else {
        assert InPart(x, b, lineSize);
      }
    }
  }

  /** `m << w` in 32 bits. */
  function Left(m: nat, w: nat): (r: nat)
  {
    Low(m * Power(w), 32)
  }

  lemma {:induction false} LeftRange(m: nat, w: nat, lo: int, hi: int)
    requires 0 <= lo && Range(m, lo, hi)
    ensures Range(Left(m, w), lo + w, Min(hi + w, 32))
  {
    forall b: nat ensures Bit(Left(m, w), b) <==> lo + w <= b < Min(hi + w, 32) {
      BitLow(m * Power(w), 32, b);
      BitScaled(m, w, b);
    }
  }

  lemma {:induction false} RightRange(m: nat, w: nat, lo: int, hi: int)
    requires Range(m, lo, hi)
    ensures Range(High(m, w), lo - w, hi - w)
  {
    forall b: nat ensures Bit(High(m, w), b) <==> lo - w <= b < hi - w { BitShiftRight(m, w, b); }
  }

  /** The loop state after `q` parts of `w` bits have been removed at either end. */
  ghost predicate Removed(startVal: nat, startMask: nat, endVal: nat, endMask: nat, q: nat, w: nat)
  {
    Range(startVal, q, 32) && Range(startMask, q, Min(q + w, 32)) &&
    Range(endVal, 0, 32 - q) && Range(endMask, 32 - q - w, 32 - q)
  }

  lemma {:induction false} RemoveBoth(startVal: nat, startMask: nat, endVal: nat, endMask: nat, q: nat, w: nat)
    requires Removed(startVal, startMask, endVal, endMask, q, w) && q + w <= 32
    ensures Removed(AndNot(startVal, startMask), Left(startMask, w), AndNot(endVal, endMask),
                    High(endMask, w), q + w, w)
  {
    RemoveLow(startVal, startMask, q, q + w, 32);
    RemoveHigh(endVal, endMask, 0, 32 - q - w, 32 - q);
    LeftRange(startMask, w, q, q + w);
    RightRange(endMask, w, 32 - q - w, 32 - q);
  }

  lemma {:induction false} RemovedAtStart(w: nat)
    requires w <= 32
    ensures Removed(WORD32 - 1, Power(w) - 1, WORD32 - 1, Left(Power(w) - 1, 32 - w), 0, w)
  {
    PowersOfTwo();
    OnesRange(32);
    OnesRange(w);
    LeftRange(Power(w) - 1, 32 - w, 0, w);
  }

  /** What the tables hold. */
  ghost predicate Tables(start: seq<nat>, end: seq<nat>, lineSize: nat)
  {
    |start| == |end| == lineSize &&
    (forall i :: 0 <= i < lineSize ==> StartMask(start[i], i, lineSize)) &&
    (forall j :: 0 <= j < lineSize ==> EndMask(end[j], j, lineSize))
  }

  lemma {:induction false} NarrowMasks(s: nat, e: nat, i: nat, w: nat, n: nat)
    requires i < n && w * n == 32 && Range(s, w * i, 32) && Range(e, 0, 32 - w * i)
    ensures StartMask(s, i, n) && EndMask(e, n - i - 1, n)
  {
    PartTimes(i, w, n);
    forall b | 0 <= b < 32
      ensures Bit(s, b) <==> i * 32 < (b + 1) * n
      ensures Bit(e, b) <==> b * n < (n - i) * 32
    {
      LessTimes(w * i, b + 1, n);
      LessTimes(b, 32 - w * i, n);
    }
  }

  lemma {:induction false} PartTimes(i: nat, w: nat, n: nat)
    requires w * n == 32
    ensures i * 32 == (w * i) * n && (n - i) * 32 == (32 - w * i) * n
  {
    var x := w * i;
    assert x * n == i * (w * n);
    assert (32 - x) * n == 32 * n - x * n;
  }

  lemma {:induction false} NextPart(i: nat, w: nat, n: nat)
    requires i < n && w * n == 32
    ensures w * (i + 1) == w * i + w <= 32
  {
    var d := n - i - 1;
    assert w * n == w * i + w + w * d;
  }

  lemma {:induction false} PartsOfLine(w: nat, n: nat)
    requires n > 0 && 32 % n == 0 && w == 32 / n
    ensures w * n == 32 && w <= 32
  {
    assert w * n == 32;
    assert w <= w * n;
  }

  /** Lines shorter than 32 bytes: some bits per byte. */
  method NarrowTables(lineSize: nat, start: array<nat>, end: array<nat>)
    requires 0 < lineSize && 32 % lineSize == 0 && start.Length == end.Length == lineSize && start != end
    modifies start, end
    ensures Tables(start[..], end[..], lineSize)
  {
    var w := 32 / lineSize;
    PartsOfLine(w, lineSize);
    RemovedAtStart(w);
    var startVal: nat, endVal: nat := WORD32 - 1, WORD32 - 1;
    var startMask: nat := Power(w) - 1;
    var endMask := Left(startMask, 32 - w);
    var i := 0;
    ghost var q: nat := 0;
    while i < lineSize
      invariant 0 <= i <= lineSize && q == w * i && Removed(startVal, startMask, endVal, endMask, q, w)
      invariant forall k :: 0 <= k < i ==> StartMask(start[k], k, lineSize)
      invariant forall k :: lineSize - i <= k < lineSize ==> EndMask(end[k], k, lineSize)
    {
      NarrowMasks(startVal, endVal, i, w, lineSize);
      NextPart(i, w, lineSize);
      RemoveBoth(startVal, startMask, endVal, endMask, q, w);
      q := q + w;
      start[i] := startVal;
      startVal := AndNot(startVal, startMask);
      startMask := Left(startMask, w);
      end[lineSize-i-1] := endVal;
      endVal := AndNot(endVal, endMask);
      endMask := High(endMask, w);
      i := i + 1;
    }
  }

  lemma {:induction false} WideMasks(s: nat, e: nat, i: nat, q: nat, k: nat)
    requires i < 32 * k && q == i / k && k > 0 && Range(s, q, 32) && Range(e, 0, 32 - q)
    ensures StartMask(s, i, 32 * k) && EndMask(e, 32 * k - i - 1, 32 * k)
  {
    forall b | 0 <= b < 32
      ensures Bit(s, b) <==> i * 32 < (b + 1) * (32 * k)
      ensures Bit(e, b) <==> b * (32 * k) < (32 * k - i) * 32
    {
      assert (b + 1) * (32 * k) == (b + 1) * k * 32;
      assert b * (32 * k) == b * k * 32;
      assert (32 - b) * k == 32 * k - b * k;
      QuotientBelow(i, k, q, b + 1);
      QuotientBelow(i, k, q, 32 - b);
    }
  }

  lemma {:induction false} QuotientBelow(i: nat, k: nat, q: nat, c: nat)
    requires k > 0 && q == i / k
    ensures i < c * k <==> q < c
  {
    assert i == q * k + i % k;
    if q < c {
      assert (q + 1) * k <= c * k;
    } else {
      assert c * k <= q * k;
    }
  }

  /** Lines of 32 bytes or more: some bytes per bit. */
  method WideTables(lineSize: nat, start: array<nat>, end: array<nat>)
    requires 32 <= lineSize && lineSize % 32 == 0 && start.Length == end.Length == lineSize && start != end
    modifies start, end
    ensures Tables(start[..], end[..], lineSize)
  {
    var k := lineSize / 32;
    RemovedAtStart(1);
    PowersOfTwo();
    var startVal: nat, endVal: nat := WORD32 - 1, WORD32 - 1;
    var startMask, endMask := 1, Left(1, 31);
    var i := 0;
    ghost var q: nat := 0;
    while i < lineSize
      invariant 0 <= i <= lineSize && q == i / k && Removed(startVal, startMask, endVal, endMask, q, 1)
      invariant forall k :: 0 <= k < i ==> StartMask(start[k], k, lineSize)
      invariant forall k :: lineSize - i <= k < lineSize ==> EndMask(end[k], k, lineSize)
    {
      WideMasks(startVal, endVal, i, q, k);
      NextQuotient(i, k, q);
      start[i] := startVal;
      end[lineSize-i-1] := endVal;
      if (i + 1) % k == 0 {
        RemoveBoth(startVal, startMask, endVal, endMask, q, 1);
        startVal := AndNot(startVal, startMask);
        endVal := AndNot(endVal, endMask);
        startMask := Left(startMask, 1);
        endMask := High(endMask, 1);
        q := q + 1;
      }
      i := i + 1;
    }
  }

  lemma {:induction false} NextQuotient(i: nat, k: nat, q: nat)
    requires k > 0 && q == i / k && i < 32 * k
    ensures q < 32 && (i + 1) / k == if (i + 1) % k == 0 then q + 1 else q
  {
    QuotientBelow(i, k, q, 32);
    var r := i % k;
    assert i == q * k + r;
    if r + 1 == k {
      assert (q + 1) * k == q * k + k;
      DivModIs(i + 1, k, q + 1, 0);
    } else {
      DivModIs(i + 1, k, q, r + 1);
    }
  }

  /** Build the mask tables for a line size; sizes are powers of two. */
  method InitMasks(lineSize: nat) returns (start: array<nat>, end: array<nat>)
    requires lineSize > 0 && (if lineSize < 32 then 32 % lineSize == 0 else lineSize % 32 == 0)
    ensures Tables(start[..], end[..], lineSize) && fresh(start) && fresh(end)
  {
    start, end := new nat[lineSize], new nat[lineSize];
    if lineSize < 32 {
      NarrowTables(lineSize, start, end);
    } else {
      WideTables(lineSize, start, end);
    }
  }
}
