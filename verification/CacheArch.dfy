/** Cachegrind's cache parameters: the check that the simulator can work with them, and the
    adjustment of a last-level cache whose number of sets is not a power of two. */
module CacheArch {
  import opened Arith
  import opened Bits

  const MIN_LINE_SIZE: nat := 16
  const INT_MAX: nat := 0x7fff_ffff
  const INT_MIN: int := -0x8000_0000

  predicate PowerOfTwo(x: nat)
  {
    x > 0 && (x == 1 || (x % 2 == 0 && PowerOfTwo(x / 2)))
  }

  lemma {:induction false} PowersArePowers(n: nat)
    ensures PowerOfTwo(Power(n))
  {
    if n > 0 { PowersArePowers(n - 1); }
  }

  lemma {:induction false} PowerOf(x: nat) returns (n: nat)
    requires PowerOfTwo(x)
    ensures x == Power(n)
    decreases x
  {
    if x == 1 {
      n := 0;
    } else {
      n := PowerOf(x / 2);
      n := n + 1;
    }
  }

  // ------------------------------------------------------------------ floor_power_of_2

  /** Bit `b` of `y` tells whether `x` has a bit among the `w` from `b` on. */
  ghost predicate Smeared(x: nat, y: nat, w: nat)
  {
    forall b: nat :: Bit(y, b) <==> HasBit(x, b, b + w)
  }

  ghost predicate HasBit(x: nat, lo: nat, hi: nat)
  {
    exists k: nat :: lo <= k < hi && Bit(x, k)
  }

  lemma {:induction false} SmearStep(x: nat, y: nat, w: nat)
    requires Smeared(x, y, w)
    ensures Smeared(x, Or(y, High(y, w)), 2 * w)
  {
    forall b: nat ensures Bit(Or(y, High(y, w)), b) <==> HasBit(x, b, b + 2 * w) {
      BitOr(y, High(y, w), b);
      BitShiftRight(y, w, b);
      assert Bit(y, b) <==> HasBit(x, b, b + w);
      assert Bit(y, b + w) <==> HasBit(x, b + w, b + w + w);
      HasBitSplit(x, b, b + w, b + w + w);
    }
  }

  lemma {:induction false} HasBitSplit(x: nat, lo: nat, mid: nat, hi: nat)
    requires lo <= mid <= hi
    ensures HasBit(x, lo, hi) <==> HasBit(x, lo, mid) || HasBit(x, mid, hi)
  {
    if HasBit(x, lo, hi) {
      var k: nat :| lo <= k < hi && Bit(x, k);
      assert k < mid || mid <= k;
    }
    if HasBit(x, lo, mid) {
      var k: nat :| lo <= k < mid && Bit(x, k);
    }
    if HasBit(x, mid, hi) {
      var k: nat :| mid <= k < hi && Bit(x, k);
    }
  }

  lemma {:induction false} SmearStart(x: nat)
    ensures Smeared(x, x, 1)
  {
    forall b: nat ensures Bit(x, b) <==> HasBit(x, b, b + 1) { }
  }

  lemma {:induction false} NoBitAbove(x: nat, n: nat, b: nat)
    requires x < Power(n) && n <= b
    ensures !Bit(x, b)
    decreases n
  {
    if n == 0 {
      NoBit(b);
    } else {
      NoBitAbove(x / 2, n - 1, b - 1);
    }
  }

  lemma {:induction false} TopBit(x: nat, n: nat)
    requires Power(n) <= x < Power(n + 1)
    ensures Bit(x, n)
    decreases n
  {
    if n > 0 {
      assert Power(n) == 2 * Power(n - 1) && Power(n + 1) == 2 * Power(n);
      TopBit(x / 2, n - 1);
    }
  }

  lemma {:induction false} OnesOf(y: nat, n: nat)
    requires Range(y, 0, n)
    ensures y == Power(n) - 1
    decreases n, y
  {
    if n == 0 {
      if y > 0 { NoBitsIsZero(y); }
    } else {
      assert Bit(y, 0);
      forall b: nat ensures Bit(y / 2, b) <==> 0 <= b < n - 1 {
        assert Bit(y, b + 1) == Bit(y / 2, b);
      }
      OnesOf(y / 2, n - 1);
    }
  }

  lemma {:induction false} NoBitsIsZero(y: nat)
    requires y > 0
    ensures exists b: nat :: Bit(y, b)
  {
    if y % 2 == 1 {
      assert Bit(y, 0);
    } else {
      NoBitsIsZero(y / 2);
      var b: nat :| Bit(y / 2, b);
      assert Bit(y, b + 1);
    }
  }

  /** Which power of two a number lies above. */
  lemma {:induction false} Magnitude(x: nat) returns (n: nat)
    requires x > 0
    ensures Power(n) <= x < Power(n + 1)
    decreases x
  {
    if x == 1 {
      n := 0;
    } else {
      n := Magnitude(x / 2);
      assert Power(n + 1) == 2 * Power(n) && Power(n + 2) == 2 * Power(n + 1);
      n := n + 1;
    }
  }

  lemma {:induction false} PowerGrows(m: nat, n: nat)
    requires m <= n
    ensures Power(m) <= Power(n)
    decreases n
  {
    if m < n { PowerGrows(m, n - 1); }
  }

  lemma {:induction false} SmearedAll(x: nat, y: nat, n: nat)
    requires Power(n) <= x < Power(n + 1) && n < 32 && Smeared(x, y, 32)
    ensures y == Power(n + 1) - 1
  {
    forall b: nat ensures Bit(y, b) <==> 0 <= b < n + 1 {
      TopBit(x, n);
      if b <= n {
        assert HasBit(x, b, b + 32);
      } else if HasBit(x, b, b + 32) {
        var k: nat :| b <= k < b + 32 && Bit(x, k);
        NoBitAbove(x, n + 1, k);
      }
    }
    OnesOf(y, n + 1);
  }

  lemma {:induction false} SmearedZero(y: nat)
    requires Smeared(0, y, 32)
    ensures y == 0
  {
    forall b: nat ensures !Bit(y, b) {
      if HasBit(0, b, b + 32) {
        var k: nat :| b <= k < b + 32 && Bit(0, k);
        NoBit(k);
      }
    }
    if y > 0 {
      NoBitsIsZero(y);
    }
  }

  /** The largest power of two not above `x`, and 0 for 0. */
  method FloorPowerOf2(x: nat) returns (r: nat)
    requires x < WORD32
    ensures x == 0 ==> r == 0
    ensures x > 0 ==> PowerOfTwo(r) && r <= x < 2 * r
  {
    var y := x;
    SmearStart(x);
    SmearStep(x, y, 1);
    y := Or(y, High(y, 1));
    SmearStep(x, y, 2);
    y := Or(y, High(y, 2));
    SmearStep(x, y, 4);
    y := Or(y, High(y, 4));
    SmearStep(x, y, 8);
    y := Or(y, High(y, 8));
    SmearStep(x, y, 16);
    y := Or(y, High(y, 16));
    HalfOf(x, y);
    r := y - High(y, 1);
  }

  lemma {:induction false} HalfOf(x: nat, y: nat)
    requires x < WORD32 && Smeared(x, y, 32)
    ensures High(y, 1) <= y
    ensures var r := y - High(y, 1);
            if x == 0 then r == 0 else PowerOfTwo(r) && r <= x < 2 * r
  {
    assert Power(1) == 2;
    if x == 0 {
      SmearedZero(y);
    } else {
      var n := Magnitude(x);
      PowersOfTwo();
      if n >= 32 { PowerGrows(32, n); }
      SmearedAll(x, y, n);
      assert Power(n + 1) == 2 * Power(n);
      PowersArePowers(n);
    }
  }

  // ------------------------------------------------------------------ check_cache

  /** Signed 32-bit numbers, and C's conversion to them. */
  predicate IsInt(x: int)
  {
    INT_MIN <= x <= INT_MAX
  }

  function AsInt(x: int): (i: int)
    ensures IsInt(i) && (IsInt(x) ==> i == x)
  {
    var w := x % WORD32;
    if w <= INT_MAX then w else w - WORD32
  }

  /** C's quotient and remainder, which round towards zero. */
  function CDiv(x: int, d: int): (q: int)
    requires d != 0
  {
    if x >= 0 then x / d else -((-x) / d)
  }

  function CRem(x: int, d: int): (r: int)
    requires d != 0
  {
    if x >= 0 then x % d else -((-x) % d)
  }

  /** Is the 32-bit pattern of `x` that of a power of two? */
  predicate HasLog2(x: int)
  {
    PowerOfTwo(x % WORD32)
  }

  /** `Crash` is a division by zero or out of range. */
  datatype Verdict =
    | Fine | LineSizeZero | AssocZero | SetsNotPowerOfTwo | LineSizeNotPowerOfTwo
    | LineSizeTooSmall | SizeTooSmall | AssocTooLarge | Crash

  /** The product is computed in 32 bits and wraps. */
  function CheckCache(size: int, assoc: int, lineSize: int): (v: Verdict)
  {
    if lineSize == 0 then LineSizeZero
    else if assoc == 0 then AssocZero
    else
      var span := AsInt(lineSize * assoc);
      if span == 0 || (size == INT_MIN && span == -1) then Crash
      else if CRem(size, span) != 0 then SetsNotPowerOfTwo
      else if size == INT_MIN && lineSize == -1 then Crash
      else if !HasLog2(CDiv(CDiv(size, lineSize), assoc)) then SetsNotPowerOfTwo
      else if !HasLog2(lineSize) then LineSizeNotPowerOfTwo
      else if lineSize < MIN_LINE_SIZE then LineSizeTooSmall
      else if size <= lineSize then SizeTooSmall
      else if assoc > CDiv(size, lineSize) then AssocTooLarge
      else Fine
  }

  function Quotient(x: nat, d: nat): (q: nat)
    requires d > 0
  {
    DivNat(x, d);
    x / d
  }

  lemma {:induction false} WholeSets(n: nat, assoc: nat, lineSize: nat)
    requires assoc > 0 && lineSize > 0
    ensures var size := n * assoc * lineSize;
            size >= 0 && size % (lineSize * assoc) == 0 && size / (lineSize * assoc) == n
    ensures var size := n * assoc * lineSize;
            size / lineSize == n * assoc && Quotient(n * assoc, assoc) == n
  {
    var size := n * assoc * lineSize;
    assert size == n * (lineSize * assoc);
    DivModIs(size, lineSize * assoc, n, 0);
    DivModIs(size, lineSize, n * assoc, 0);
    DivModIs(n * assoc, assoc, n, 0);
  }

  lemma {:induction false} SetsOf(size: nat, assoc: nat, lineSize: nat) returns (n: nat)
    requires assoc > 0 && lineSize > 0 && size % (lineSize * assoc) == 0
    ensures size == n * assoc * lineSize && n == Quotient(Quotient(size, lineSize), assoc)
  {
    n := Quotient(size, lineSize * assoc);
    assert size == n * (lineSize * assoc);
    assert size == n * assoc * lineSize;
    WholeSets(n, assoc, lineSize);
  }

  /** The parameters divide into a power of two of sets of at least two lines in all. */
  ghost predicate Simulable(size: int, assoc: int, lineSize: int)
  {
    assoc > 0 && lineSize >= MIN_LINE_SIZE && PowerOfTwo(lineSize) &&
    exists n: nat :: PowerOfTwo(n) && size == n * assoc * lineSize && n * assoc >= 2
  }

  lemma {:induction false} LinesOf(lines: nat, lineSize: nat)
    requires lineSize > 0
    ensures lines * lineSize > lineSize <==> lines >= 2
  {
    assert lines >= 2 ==> lines * lineSize >= 2 * lineSize;
    assert lines == 1 ==> lines * lineSize == lineSize;
  }

  lemma {:induction false} MoreWaysThanOne(n: nat, assoc: nat)
    requires n > 0
    ensures n * assoc >= assoc
  {
    assert (n - 1) * assoc >= 0;
    assert n * assoc == (n - 1) * assoc + assoc;
  }

  lemma {:induction false} QuotientTimes(x: nat, d: nat)
    requires d > 0
    ensures Quotient(x, d) * d <= x
  {
  }

  /** A negative quotient has no logarithm. */
  lemma {:induction false} HalfWordIsPower()
    ensures PowerOfTwo(INT_MAX + 1)
  {
    PowersOfTwo();
    assert Power(32) == 2 * Power(31);
    PowersArePowers(31);
  }

  lemma {:induction false} NegativeHasNoLog2(q: int)
    requires -0x4000_0000 <= q <= 0
    ensures !HasLog2(q)
  {
    if q < 0 && HasLog2(q) {
      HalfWordIsPower();
      DivModIs(WORD32 + q, WORD32, 0, WORD32 + q);
      assert q % WORD32 == (WORD32 + q) % WORD32;
      PowerBetween(WORD32 + q, INT_MAX + 1);
    }
  }

  lemma {:induction false} AtMostHalf(x: nat, d: nat)
    requires d >= 2
    ensures 2 * Quotient(x, d) <= x
  {
    var q := Quotient(x, d);
    QuotientTimes(x, d);
    LessTimes(2, d, q);
  }

  lemma {:induction false} NegativeDivisor(x: nat, d: int)
    requires d < 0
    ensures 0 - x <= x / d <= 0
  {
    var q, r := x / d, x % d;
    assert x == d * q + r && 0 <= r < -d;
    assert q > 0 ==> d * q <= d;
    assert d * q == (-d) * (-q);
    if q < 0 { LessTimes(1, -d, -q); }
  }

  lemma {:induction false} NegativeAssoc(size: nat, assoc: int, lineSize: nat)
    requires size <= INT_MAX && assoc < 0 && lineSize >= MIN_LINE_SIZE
    ensures !HasLog2(CDiv(Quotient(size, lineSize), assoc))
  {
    var lines := Quotient(size, lineSize);
    AtMostHalf(size, lineSize);
    NegativeDivisor(lines, assoc);
    NegativeHasNoLog2(lines / assoc);
  }

  /** If there is a set at all, the product of line size and associativity does not wrap. */
  lemma {:induction false} SetsKeepSpan(size: nat, assoc: nat, lineSize: nat)
    requires assoc > 0 && lineSize > 0 && Quotient(Quotient(size, lineSize), assoc) > 0
    ensures lineSize * assoc <= size
  {
    var lines := Quotient(size, lineSize);
    QuotientTimes(size, lineSize);
    QuotientTimes(lines, assoc);
    MoreWaysThanOne(Quotient(lines, assoc), assoc);
    var d := lines - assoc;
    assert lines * lineSize == assoc * lineSize + d * lineSize;
    MulNat(d, lineSize);
  }

  /** What acceptance says, in plain quotients. */
  lemma {:induction false} AcceptedParts(size: int, assoc: int, lineSize: int)
    requires CheckCache(size, assoc, lineSize) == Fine
    ensures size > lineSize >= MIN_LINE_SIZE && HasLog2(lineSize) && assoc != 0
    ensures AsInt(lineSize * assoc) != 0 && size % AsInt(lineSize * assoc) == 0
    ensures HasLog2(CDiv(Quotient(size, lineSize), assoc))
  {
  }

  lemma {:induction false} Log2OfInt(x: nat)
    requires x <= INT_MAX
    ensures HasLog2(x) <==> PowerOfTwo(x)
  {
    DivModIs(x, WORD32, 0, x);
  }

  lemma {:induction false} AcceptedIsSimulable(size: int, assoc: int, lineSize: int)
    requires IsInt(size) && IsInt(assoc) && IsInt(lineSize) && CheckCache(size, assoc, lineSize) == Fine
    ensures Simulable(size, assoc, lineSize)
  {
    AcceptedParts(size, assoc, lineSize);
    if assoc < 0 {
      NegativeAssoc(size, assoc, lineSize);
    } else {
      SetsAre(size, assoc, lineSize);
    }
  }

  lemma {:induction false} SetsAre(size: nat, assoc: nat, lineSize: nat)
    requires size <= INT_MAX && size > lineSize >= MIN_LINE_SIZE && HasLog2(lineSize) && assoc > 0
    requires AsInt(lineSize * assoc) != 0 && size % AsInt(lineSize * assoc) == 0
    requires HasLog2(Quotient(Quotient(size, lineSize), assoc))
    ensures Simulable(size, assoc, lineSize)
  {
    var n := Quotient(Quotient(size, lineSize), assoc);
    AtMostHalf(size, lineSize);
    QuotientTimes(Quotient(size, lineSize), assoc);
    MoreWaysThanOne(assoc, n);
    Log2OfInt(n);
    Log2OfInt(lineSize);
    SetsKeepSpan(size, assoc, lineSize);
    var k := SetsOf(size, assoc, lineSize);
    LinesOf(k * assoc, lineSize);
  }

  lemma {:induction false} PlainlyAccepted(size: nat, assoc: nat, lineSize: nat, n: nat)
    requires size <= INT_MAX && assoc > 0 && lineSize >= MIN_LINE_SIZE && 0 < n <= INT_MAX
    requires PowerOfTwo(lineSize) && PowerOfTwo(n)
    requires 0 < lineSize * assoc <= size && size % (lineSize * assoc) == 0
    requires Quotient(Quotient(size, lineSize), assoc) == n && size > lineSize && assoc <= Quotient(size, lineSize)
    ensures CheckCache(size, assoc, lineSize) == Fine
  {
    Log2OfInt(n);
    Log2OfInt(lineSize);
  }

  lemma {:induction false} SimulableIsAccepted(size: int, assoc: int, lineSize: int)
    requires IsInt(size) && IsInt(assoc) && IsInt(lineSize) && Simulable(size, assoc, lineSize)
    ensures CheckCache(size, assoc, lineSize) == Fine
  {
    var n: nat :| PowerOfTwo(n) && size == n * assoc * lineSize && n * assoc >= 2;
    WholeSets(n, assoc, lineSize);
    SetsKeepSpan(size, assoc, lineSize);
    LinesOf(n * assoc, lineSize);
    MoreWaysThanOne(n, assoc);
    MoreWaysThanOne(assoc, n);
    MoreWaysThanOne(lineSize, n * assoc);
    MoreWaysThanOne(lineSize, assoc);
    PlainlyAccepted(size, assoc, lineSize, n);
  }

  /** The check accepts exactly the parameters the simulator can work with, of all 32-bit
      ones. */
  lemma {:induction false} CheckCacheAccepts(size: int, assoc: int, lineSize: int)
    requires IsInt(size) && IsInt(assoc) && IsInt(lineSize)
    ensures CheckCache(size, assoc, lineSize) == Fine <==> Simulable(size, assoc, lineSize)
  {
    if CheckCache(size, assoc, lineSize) == Fine { AcceptedIsSimulable(size, assoc, lineSize); }
    if Simulable(size, assoc, lineSize) { SimulableIsAccepted(size, assoc, lineSize); }
  }

  lemma {:induction false} AsIntIs(x: int)
    ensures AsInt(x) == 0 <==> x % WORD32 == 0
    ensures AsInt(x) == -1 <==> x % WORD32 == WORD32 - 1
  {
  }

  /** The smallest number is divisible by the wrapped product of -1 and `assoc` if and only if
      it is by `assoc`. */
  lemma {:induction false} RemOfMinusOne(assoc: int)
    requires IsInt(assoc) && assoc != 0
    ensures AsInt(-assoc) != 0 && (CRem(INT_MIN, AsInt(-assoc)) == 0 <==> INT_MIN % assoc == 0)
  {
    if assoc == INT_MIN {
      assert AsInt(-assoc) == INT_MIN;
    } else {
      assert AsInt(-assoc) == -assoc;
      SameRem(-INT_MIN, assoc);
    }
  }

  lemma {:induction false} SameRem(x: int, d: int)
    requires d != 0
    ensures x % -d == 0 <==> -x % d == 0
  {
    var q, r := x / -d, x % -d;
    var p, t := -x / d, -x % d;
    assert x == -d * q + r && -x == d * p + t;
    if r == 0 { assert -x == d * q; MultipleHasNoRem(q, d); }
    if t == 0 { assert x == -d * p; MultipleHasNoRem(p, -d); }
  }

  lemma {:induction false} MultipleHasNoRem(q: int, d: int)
    requires d != 0
    ensures (d * q) % d == 0
  {
    var p, r := (d * q) / d, (d * q) % d;
    assert d * q == d * p + r;
    assert r == d * (q - p);
    if q - p >= 1 { Grows(d, q - p); }
    if q - p <= -1 { Grows(d, p - q); }
  }

  lemma {:induction false} Grows(d: int, k: int)
    requires d != 0 && k >= 1
    ensures if d > 0 then d * k >= d else d * k <= d
  {
  }

  /** Of all 32-bit parameters the check, instead of rejecting them, divides by zero or out of
      range on exactly these: associativity and line size are not zero and multiply to a
      multiple of 2^32; or the size is the smallest number and that product is one less, or
      the line size is -1 and the associativity divides the size. */
  lemma {:induction false} CheckCacheCrashesIff(size: int, assoc: int, lineSize: int)
    requires IsInt(size) && IsInt(assoc) && IsInt(lineSize)
    ensures CheckCache(size, assoc, lineSize) == Crash <==>
            lineSize != 0 && assoc != 0 &&
            ((lineSize * assoc) % WORD32 == 0 ||
             (size == INT_MIN && ((lineSize * assoc) % WORD32 == WORD32 - 1 ||
                                  (lineSize == -1 && INT_MIN % assoc == 0))))
  {
    AsIntIs(lineSize * assoc);
    if lineSize == -1 && assoc != 0 {
      assert lineSize * assoc == -assoc;
      RemOfMinusOne(assoc);
    }
  }

  /** Lines of 65536 bytes and associativity 65536 are such parameters, whatever the size. */
  lemma {:induction false} CheckCacheCrashes(size: int)
    ensures CheckCache(size, 65536, 65536) == Crash
  {
    assert 65536 * 65536 == WORD32;
  }

  // ------------------------------------------------------------------ maybe_tweak_LLc

  /** Scale the associativity by `n / f`, rounding to nearest.  Both quotient and product are
      exact in double precision for the numbers that occur. */
  function Scaled(n: nat, f: nat, assoc: nat): (a: int)
    requires f > 0
  {
    (0.5 + (n as real / f as real) * (assoc as real)).Floor
  }

  lemma {:induction false} RealQuotient(n: real, f: real, a: real)
    requires f > 0.0
    ensures (n / f) * a * f == n * a
  {
    var q := n / f;
    assert q * f == n;
    assert q * a * f == (q * f) * a;
  }

  lemma {:induction false} LessTimesReal(x: real, y: real, g: real)
    requires g > 0.0
    ensures x <= y ==> x * g <= y * g
    ensures x < y ==> x * g < y * g
  {
    var d := y - x;
    assert y * g == x * g + d * g;
  }

  lemma {:induction false} RealTimes(x: nat, y: nat)
    ensures (x as real) * (y as real) == (x * y) as real
    decreases x
  {
    if x > 0 {
      RealTimes(x - 1, y);
      var r := (x - 1) as real;
      assert (r + 1.0) * (y as real) == r * (y as real) + y as real;
      assert x * y == (x - 1) * y + y;
    }
  }

  lemma {:induction false} BelowTimes(v: real, b: nat, f: nat)
    requires f > 0 && v < b as real
    ensures v * (f as real) < (b * f) as real
  {
    LessTimesReal(v, b as real, f as real);
    RealTimes(b, f);
  }

  lemma {:induction false} FloorTimes(v: real, a: nat, f: nat, w: real)
    requires f > 0 && a == v.Floor && w == v * (f as real)
    ensures (a * f) as real <= w < ((a + 1) * f) as real
  {
    LessTimesReal(a as real, v, f as real);
    RealTimes(a, f);
    BelowTimes(v, a + 1, f);
  }

  lemma {:induction false} Rounded(v: real, a: int, f: nat, p: nat)
    requires f > 0 && v >= 0.0 && a == v.Floor && v * (f as real) == 0.5 * (f as real) + p as real
    ensures a >= 0 && 2 * (a * f) <= 2 * p + f < 2 * (a * f) + 2 * f
  {
    var w := v * (f as real);
    FloorTimes(v, a, f, w);
    Doubled(a * f, (a + 1) * f, f, p);
    assert (a + 1) * f == a * f + f;
  }

  lemma {:induction false} Doubled(x: int, y: int, f: int, p: int)
    requires x as real <= 0.5 * (f as real) + p as real < y as real
    ensures 2 * x <= 2 * p + f < 2 * y
  {
  }

  lemma {:induction false} TimesHalf(q: real, f: real, p: real)
    requires q * f == p
    ensures (0.5 + q) * f == 0.5 * f + p
  {
  }

  lemma {:induction false} NotNegative(n: real, f: real, a: real)
    requires f > 0.0 && n >= 0.0 && a >= 0.0
    ensures (n / f) * a >= 0.0
  {
  }

  lemma {:induction false} ScaledRounds(n: nat, f: nat, assoc: nat)
    requires f > 0
    ensures var a := Scaled(n, f, assoc); a >= 0 && 2 * (a * f) <= 2 * (n * assoc) + f < 2 * (a * f) + 2 * f
  {
    var q := (n as real / f as real) * (assoc as real);
    RealQuotient(n as real, f as real, assoc as real);
    RealTimes(n, assoc);
    TimesHalf(q, f as real, (n * assoc) as real);
    NotNegative(n as real, f as real, assoc as real);
    Rounded(0.5 + q, Scaled(n, f, assoc), f, n * assoc);
  }

  lemma {:induction false} NotBelow(a: nat, assoc: nat, f: nat, p: nat)
    requires f > 0 && p >= f * assoc && 2 * p + f < 2 * (a * f) + 2 * f
    ensures a >= assoc
  {
    var d := assoc - a - 1;
    assert f * assoc == f * a + f + f * d;
    assert d >= 0 ==> f * d >= 0;
  }

  /** With no more sets than before the associativity does not shrink. */
  lemma {:induction false} ScaledGrows(n: nat, f: nat, assoc: nat)
    requires 0 < f <= n
    ensures Scaled(n, f, assoc) >= assoc
  {
    ScaledRounds(n, f, assoc);
    var d := n - f;
    assert n * assoc == f * assoc + d * assoc;
    NotBelow(Scaled(n, f, assoc), assoc, f, n * assoc);
  }

  /** The number of sets and the associativity chosen for a cache of `n` sets. */
  ghost predicate Chosen(n: nat, assoc: nat, sets: nat, ways: int)
  {
    PowerOfTwo(sets) && sets <= n < 2 * sets &&
    ways == if PowerOfTwo(n) then assoc else Scaled(n, sets, assoc)
  }

  lemma {:induction false} PowerBetween(n: nat, f: nat)
    requires PowerOfTwo(n) && PowerOfTwo(f) && f <= n < 2 * f
    ensures n == f
    decreases n
  {
    if n > 1 && f > 1 { PowerBetween(n / 2, f / 2); }
  }

  lemma {:induction false} HalfStep(lineSize: nat, x: int, y: int, f: nat)
    requires 2 * x <= 2 * y + f && 2 * y < 2 * x + f + 1
    ensures 2 * (lineSize * x) <= 2 * (lineSize * y) + lineSize * f
    ensures 2 * (lineSize * y) <= 2 * (lineSize * x) + lineSize * f
  {
    var d, e := 2 * y + f - 2 * x, 2 * x + f - 2 * y;
    assert lineSize * d >= 0 && lineSize * e >= 0;
    assert lineSize * d == 2 * (lineSize * y) + lineSize * f - 2 * (lineSize * x);
    assert lineSize * e == 2 * (lineSize * x) + lineSize * f - 2 * (lineSize * y);
  }

  /** Bytes in a cache. */
  function Volume(lineSize: nat, ways: nat, sets: nat): (v: nat)
  {
    MulNat(ways, sets);
    MulNat(lineSize, ways * sets);
    lineSize * (ways * sets)
  }

  lemma {:induction false} MulNat(x: nat, y: nat)
    ensures x * y >= 0
  {
  }

  /** The total size moves by at most half a line per set, and the associativity grows. */
  lemma {:induction false} TweakIsSmall(n: nat, assoc: nat, lineSize: nat, sets: nat, ways: int)
    requires n > 0 && Chosen(n, assoc, sets, ways)
    ensures ways >= assoc
    ensures 2 * Volume(lineSize, ways, sets) <= 2 * Volume(lineSize, assoc, n) + lineSize * sets
    ensures 2 * Volume(lineSize, assoc, n) <= 2 * Volume(lineSize, ways, sets) + lineSize * sets
  {
    if PowerOfTwo(n) {
      PowerBetween(n, sets);
    } else {
      ScaledRounds(n, sets, assoc);
      ScaledGrows(n, sets, assoc);
      assert n * assoc == assoc * n;
    }
    HalfStep(lineSize, ways * sets, assoc * n, sets);
  }

  /** Associativity times line size in 32-bit arithmetic. */
  function Span(assoc: nat, lineSize: nat): (s: nat)
    ensures s < WORD32
  {
    (assoc * lineSize) % WORD32
  }

  class CacheConfig {
    var size: int
    var assoc: int
    var lineSize: int

    /** Are all parameters positive, and does the division for the number of sets work? */
    ghost predicate Divides()
      reads this
    {
      size > 0 && assoc > 0 && lineSize > 0 && Span(assoc, lineSize) > 0
    }

    /** Number of sets, as far as the parameters give one. */
    ghost function Sets(): (n: nat)
      reads this
    {
      if Divides() then Quotient(size, Span(assoc, lineSize)) else 0
    }

    /** Make the number of sets a power of two.  Fails on a negative parameter or a division
        by zero. */
    method MaybeTweakLLc() returns (ok: bool)
      requires IsInt(size) && IsInt(assoc) && IsInt(lineSize)
      modifies this
      ensures ok <==> old(size == 0 || assoc == 0 || lineSize == 0 || Divides())
      ensures lineSize == old(lineSize)
      ensures old(Sets()) == 0 ==> size == old(size) && assoc == old(assoc)
      ensures old(Sets()) > 0 ==> exists sets: nat, ways: nat ::
                Chosen(old(Sets()), old(assoc), sets, ways) && assoc == AsInt(ways) &&
                size == AsInt(Volume(lineSize, ways, sets))
    {
      if size == 0 || assoc == 0 || lineSize == 0 {
        return true;
      }
      if size < 0 || assoc < 0 || lineSize < 0 || Span(assoc, lineSize) == 0 {
        return false;
      }
      ok := true;
      var n := Quotient(size, Span(assoc, lineSize));
      if n == 0 {
        return;
      }
      var ways: nat, sets: nat := assoc, n;
      if !PowerOfTwo(n) {
        QuotientTimes(size, Span(assoc, lineSize));
        MoreWaysThanOne(Span(assoc, lineSize), n);
        sets := FloorPowerOf2(n);
        ScaledGrows(n, sets, assoc);
        ways := Scaled(n, sets, assoc);
      }
      assert Chosen(n, assoc, sets, ways);
      size, assoc := AsInt(Volume(lineSize, ways, sets)), AsInt(ways);
    }
  }

  lemma {:induction false} LineTimesSets(n: nat, sets: nat, assoc: nat, lineSize: nat)
    requires 0 < sets <= n && assoc > 0
    ensures lineSize * sets <= Volume(lineSize, assoc, n)
  {
    MoreWaysThanOne(assoc, n);
    var d := assoc * n - sets;
    assert lineSize * (assoc * n) == lineSize * sets + lineSize * d;
    MulNat(lineSize, d);
  }

  lemma {:induction false} VolumeOrder(lineSize: nat, ways: nat, sets: nat)
    ensures Volume(lineSize, ways, sets) == sets * (ways * lineSize) == sets * ways * lineSize
  {
  }

  lemma {:induction false} TweakedFits(size: nat, n: nat, assoc: nat, lineSize: nat, sets: nat, ways: nat)
    requires size <= INT_MAX && assoc > 0 && n > 0 && n * (assoc * lineSize) <= size && Chosen(n, assoc, sets, ways)
    ensures Volume(lineSize, ways, sets) < WORD32
  {
    VolumeOrder(lineSize, assoc, n);
    TweakIsSmall(n, assoc, lineSize, sets, ways);
    LineTimesSets(n, sets, assoc, lineSize);
  }

  /** Rounding up or down, a multiple of `f` stays within `f * (m + 1)` or not. */
  lemma {:induction false} RoundedBelow(a: nat, f: nat, p: nat, m: nat)
    requires f > 0 && 2 * (a * f) <= 2 * p + f < 2 * (a * f) + 2 * f
    ensures a <= m <==> 2 * p + f < 2 * (f * (m + 1))
  {
    if a <= m { LessTimes(a, m, f); } else { LessTimes(m + 1, a, f); }
    assert f * (m + 1) == (m + 1) * f == m * f + f;
  }

  lemma {:induction false} TimesAtMost(a: nat, d: nat, bound: nat)
    requires d > 0
    ensures a * d <= bound <==> a <= Quotient(bound, d)
  {
    var q := Quotient(bound, d);
    assert bound == q * d + bound % d;
    if a <= q { LessTimes(a, q, d); } else { LessTimes(q + 1, a, d); assert (q + 1) * d == q * d + d; }
  }

  /** Does a cache of `n` sets keep a size below 2^31 when its sets become `sets`?  It always
      does if `n` is a power of two. */
  predicate KeepsInt(n: nat, assoc: nat, lineSize: nat, sets: nat)
    requires lineSize * sets > 0
  {
    PowerOfTwo(n) || 2 * (n * assoc) + sets < 2 * (sets * (Quotient(INT_MAX, lineSize * sets) + 1))
  }

  lemma {:induction false} VolumeIsInt(n: nat, assoc: nat, lineSize: nat, sets: nat, ways: nat)
    requires lineSize * sets > 0 && n > 0 && Volume(lineSize, assoc, n) <= INT_MAX && Chosen(n, assoc, sets, ways)
    ensures Volume(lineSize, ways, sets) <= INT_MAX <==> KeepsInt(n, assoc, lineSize, sets)
  {
    if PowerOfTwo(n) {
      PowerBetween(n, sets);
    } else {
      ScaledRounds(n, sets, assoc);
      assert Volume(lineSize, ways, sets) == ways * (lineSize * sets);
      TimesAtMost(ways, lineSize * sets, INT_MAX);
      RoundedBelow(ways, sets, n * assoc, Quotient(INT_MAX, lineSize * sets));
    }
  }

  /** The new size divides exactly into the chosen number of sets, a power of two, and never
      leaves 32 bits unless associativity times line size does; stored as a signed number it
      is right if and only if the old parameters say so. */
  lemma {:induction false} TweakedSize(size: nat, assoc: nat, lineSize: nat, sets: nat, ways: nat)
    requires 0 < size <= INT_MAX && assoc > 0 && lineSize > 0 && Span(assoc, lineSize) > 0
    requires var n := Quotient(size, Span(assoc, lineSize)); n > 0 && Chosen(n, assoc, sets, ways)
    ensures lineSize * sets > 0 && (assoc * lineSize < WORD32 ==> Volume(lineSize, ways, sets) < WORD32)
    ensures AsInt(Volume(lineSize, ways, sets)) == Volume(lineSize, ways, sets) <==>
            assoc * lineSize < WORD32 && KeepsInt(Quotient(size, Span(assoc, lineSize)), assoc, lineSize, sets)
    ensures ways > 0 && lineSize * ways > 0
    ensures Volume(lineSize, ways, sets) % (lineSize * ways) == 0
    ensures Volume(lineSize, ways, sets) / (lineSize * ways) == sets
  {
    var n := Quotient(size, Span(assoc, lineSize));
    TweakIsSmall(n, assoc, lineSize, sets, ways);
    WaysDivide(lineSize, ways, sets);
    if assoc * lineSize < WORD32 {
      PlainSpan(assoc, lineSize);
      TweakedPlain(size, n, assoc, lineSize, sets, ways);
    } else {
      WrappedVolume(assoc, lineSize, ways, sets);
    }
  }

  lemma {:induction false} PlainSpan(assoc: nat, lineSize: nat)
    requires 0 < assoc && 0 < lineSize && assoc * lineSize < WORD32
    ensures Span(assoc, lineSize) == assoc * lineSize
  {
    MulNat(assoc, lineSize);
    DivModIs(assoc * lineSize, WORD32, 0, assoc * lineSize);
  }

  lemma {:induction false} WaysDivide(lineSize: nat, ways: nat, sets: nat)
    requires lineSize > 0 && ways > 0 && sets > 0
    ensures lineSize * sets > 0 && lineSize * ways > 0
    ensures Volume(lineSize, ways, sets) % (lineSize * ways) == 0
    ensures Volume(lineSize, ways, sets) / (lineSize * ways) == sets
  {
    MoreWaysThanOne(ways, lineSize);
    MoreWaysThanOne(sets, lineSize);
    VolumeOrder(lineSize, ways, sets);
    WholeSets(sets, ways, lineSize);
  }

  lemma {:induction false} TweakedPlain(size: nat, n: nat, assoc: nat, lineSize: nat, sets: nat, ways: nat)
    requires size <= INT_MAX && assoc > 0 && lineSize > 0 && assoc * lineSize > 0 && lineSize * sets > 0
    requires n == Quotient(size, assoc * lineSize) > 0 && Chosen(n, assoc, sets, ways)
    ensures Volume(lineSize, ways, sets) < WORD32
    ensures AsInt(Volume(lineSize, ways, sets)) == Volume(lineSize, ways, sets) <==> KeepsInt(n, assoc, lineSize, sets)
  {
    QuotientTimes(size, assoc * lineSize);
    VolumeOrder(lineSize, assoc, n);
    TweakedFits(size, n, assoc, lineSize, sets, ways);
    VolumeIsInt(n, assoc, lineSize, sets, ways);
  }

  /** When the product wraps the new size never fits. */
  lemma {:induction false} WrappedVolume(assoc: nat, lineSize: nat, ways: nat, sets: nat)
    requires assoc * lineSize >= WORD32 && ways >= assoc && sets > 0
    ensures Volume(lineSize, ways, sets) >= WORD32
  {
    LessTimes(assoc, ways, lineSize);
    MoreWaysThanOne(sets, ways * lineSize);
    VolumeOrder(lineSize, ways, sets);
  }

  /** Powers of two of at most 2^31 divide it. */
  lemma {:induction false} DividesHalfWord(p: nat, x: nat)
    requires PowerOfTwo(p) && PowerOfTwo(x) && 0 < p <= x
    ensures p * Quotient(x, p) == x
    decreases p
  {
    if p == 1 {
    } else {
      DividesHalfWord(p / 2, x / 2);
      var q := Quotient(x / 2, p / 2);
      assert p * q == x;
      DivModIs(x, p, q, 0);
    }
  }

  lemma {:induction false} PowerTimes(x: nat, y: nat)
    requires PowerOfTwo(x) && PowerOfTwo(y)
    ensures PowerOfTwo(x * y)
  {
    var m := PowerOf(x);
    var n := PowerOf(y);
    PowerAdds(m, n);
    PowersArePowers(m + n);
  }

  /** The largest multiple of a power of two that is a signed number. */
  lemma {:induction false} MultiplesBelow(p: nat)
    requires PowerOfTwo(p) && p <= INT_MAX
    ensures p * (Quotient(INT_MAX, p) + 1) == INT_MAX + 1
  {
    var half := INT_MAX + 1;
    HalfWordIsPower();
    DividesHalfWord(p, half);
    LastMultiple(Quotient(half, p), p);
  }

  lemma {:induction false} TimesLineSize(n: nat, assoc: nat, l: nat, sets: nat, m: nat)
    requires l > 0 && (l * sets) * m == INT_MAX + 1
    ensures 2 * (n * assoc) + sets < 2 * (sets * m) <==> 2 * Volume(l, assoc, n) + l * sets < WORD32
  {
    var x, y := 2 * (n * assoc) + sets, 2 * (sets * m);
    TimesLine(x, y, l);
    assert l * y == 2 * ((l * sets) * m);
    assert l * x == 2 * Volume(l, assoc, n) + l * sets by {
      assert n * assoc == assoc * n;
    }
  }

  /** For lines of a power of two of bytes, the condition is that twice the old size and one
      line per new set stay below 2^32. */
  lemma {:induction false} KeepsIntForPowers(n: nat, assoc: nat, lineSize: nat, sets: nat)
    requires PowerOfTwo(lineSize) && PowerOfTwo(sets) && lineSize * sets <= INT_MAX
    ensures lineSize * sets > 0
    ensures KeepsInt(n, assoc, lineSize, sets) <==>
            PowerOfTwo(n) || 2 * Volume(lineSize, assoc, n) + lineSize * sets < WORD32
  {
    PowerTimes(lineSize, sets);
    var p := lineSize * sets;
    MultiplesBelow(p);
    TimesLineSize(n, assoc, lineSize, sets, Quotient(INT_MAX, p) + 1);
  }

  lemma {:induction false} LastMultiple(q: nat, p: nat)
    requires p > 0 && q * p > 0
    ensures Quotient(q * p - 1, p) == q - 1
  {
    assert q > 0;
    assert q * p - 1 == (q - 1) * p + (p - 1);
    DivModIs(q * p - 1, p, q - 1, p - 1);
  }

  lemma {:induction false} TimesLine(x: nat, y: nat, f: nat)
    requires f > 0
    ensures x < y <==> f * x < f * y
  {
    if x < y { assert f * y == f * x + f * (y - x); MulNat(f, y - x - 1); assert f * (y - x) == f * (y - x - 1) + f; }
    else { assert f * x == f * y + f * (x - y); MulNat(f, x - y); }
  }

  lemma {:induction false} ThreeTimesIsNoPower(k: nat)
    ensures !PowerOfTwo(3 * Power(k))
  {
    if k > 0 {
      ThreeTimesIsNoPower(k - 1);
      assert 3 * Power(k) == 2 * (3 * Power(k - 1));
    }
  }

  /** A direct-mapped cache of 1.5 GiB with lines of 64 bytes ends up with a negative size. */
  lemma {:induction false} TweakOverflows()
    ensures Quotient(0x6000_0000, 1 * 64) == 0x180_0000
    ensures Chosen(0x180_0000, 1, 0x100_0000, 2) && AsInt(Volume(64, 2, 0x100_0000)) == -0x8000_0000
    ensures 2 * Volume(64, 1, 0x180_0000) + 64 * 0x100_0000 == WORD32
  {
    PowersOfTwo();
    PowerAdds(16, 8);
    assert Power(24) == 2 * Power(23);
    ThreeTimesIsNoPower(23);
    PowersArePowers(24);
    ScaledRounds(0x180_0000, 0x100_0000, 1);
  }
}
