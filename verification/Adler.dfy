/** The Adler-32 checksum of the debuginfo server: sums kept unreduced over blocks of 5552
    bytes, reduced by conditional subtractions, against the definition that reduces after
    every byte (section 2.2 of RFC 1950). */
module Adler {
  import opened Arith

  const BASE: nat := 65521
  const NMAX: nat := 5552

  ghost predicate Bytes(s: seq<nat>)
  {
    forall i :: 0 <= i < |s| ==> s[i] < 256
  }

  /** The two component sums. */
  datatype Sums = Sums(a: nat, b: nat)
  {
    predicate Reduced() { a < BASE && b < BASE }
  }

  /** The definition: both sums modulo 65521 after each byte. */
  function Plain(s: Sums, buf: seq<nat>): (r: Sums)
    ensures s.Reduced() ==> r.Reduced()
  {
    if buf == [] then s
    else
      var p := Plain(s, buf[..|buf|-1]);
      var a := (p.a + buf[|buf|-1]) % BASE;
      Sums(a, (p.b + a) % BASE)
  }

  function Pack(s: Sums): (adler: nat)
  {
    s.a + 65536 * s.b
  }

  function Unpack(adler: nat): (s: Sums)
  {
    Sums(adler % 65536, adler / 65536 % 65536)
  }

  lemma {:induction false} UnpackPack(s: Sums)
    requires s.Reduced()
    ensures Unpack(Pack(s)) == s && Pack(s) < WORD32
  {
    DivModIs(Pack(s), 65536, s.b, s.a);
  }

  lemma {:induction false} PlainConcat(s: Sums, x: seq<nat>, y: seq<nat>)
    ensures Plain(s, x + y) == Plain(Plain(s, x), y)
    decreases |y|
  {
    if y == [] {
      assert x + y == x;
    } else {
      assert (x + y)[..|x + y|-1] == x + y[..|y|-1];
      PlainConcat(s, x, y[..|y|-1]);
    }
  }

  // ------------------------------------------------------------------ deferred reduction

  /** The sums without any reduction. */
  function Raw(s: Sums, buf: seq<nat>): (r: Sums)
  {
    if buf == [] then s
    else
      var p := Raw(s, buf[..|buf|-1]);
      Sums(p.a + buf[|buf|-1], p.b + p.a + buf[|buf|-1])
  }

  lemma {:induction false} ModAdd(x: nat, y: nat)
    ensures (x + y) % BASE == (x % BASE + y) % BASE
    ensures (x + y) % BASE == (x + y % BASE) % BASE
  {
  }

  lemma {:induction false} RawReduces(s: Sums, buf: seq<nat>)
    requires s.Reduced()
    ensures var r, p := Raw(s, buf), Plain(s, buf); r.a % BASE == p.a && r.b % BASE == p.b
  {
    if buf != [] {
      var front, x := buf[..|buf|-1], buf[|buf|-1];
      RawReduces(s, front);
      BothReduce(Raw(s, front), x);
    }
  }

  /** Reducing before or after adding a byte is the same. */
  lemma {:induction false} BothReduce(r: Sums, x: nat)
    ensures (r.a % BASE + x) % BASE == (r.a + x) % BASE
    ensures (r.b % BASE + (r.a + x) % BASE) % BASE == (r.b + (r.a + x)) % BASE
  {
    ModAdd(r.a, x);
    ModAdd(r.b, r.a + x);
    ModAdd(r.b % BASE, r.a + x);
  }

  /** The bytes from number `i` on added up, and each times the number of bytes from it on. */
  function SumFrom(buf: seq<nat>, i: nat): (n: nat)
    requires i <= |buf|
    decreases |buf| - i
  {
    if i == |buf| then 0 else buf[i] + SumFrom(buf, i + 1)
  }

  function WeightedFrom(buf: seq<nat>, i: nat): (n: nat)
    requires i <= |buf|
    decreases |buf| - i
  {
    if i == |buf| then 0 else (|buf| - i) * buf[i] + WeightedFrom(buf, i + 1)
  }

  lemma {:induction false} OneByteMore(buf: seq<nat>, x: nat, i: nat)
    requires i <= |buf|
    ensures SumFrom(buf + [x], i) == SumFrom(buf, i) + x
    ensures WeightedFrom(buf + [x], i) == WeightedFrom(buf, i) + SumFrom(buf, i) + x
    decreases |buf| - i
  {
    var more := buf + [x];
    if i < |buf| {
      OneByteMore(buf, x, i + 1);
      assert (|more| - i) * more[i] == (|buf| - i) * buf[i] + buf[i];
    }
  }

  lemma {:induction false} RawIs(s: Sums, buf: seq<nat>)
    ensures Raw(s, buf) == Sums(s.a + SumFrom(buf, 0), s.b + |buf| * s.a + WeightedFrom(buf, 0))
  {
    if buf == [] {
      assert SumFrom(buf, 0) == WeightedFrom(buf, 0) == 0;
    } else {
      var front, x := buf[..|buf|-1], buf[|buf|-1];
      hide SumFrom, WeightedFrom;
      RawIs(s, front);
      OneByteMore(front, x, 0);
      assert buf == front + [x];
      assert |buf| * s.a == |front| * s.a + s.a;
    }
  }

  /** The checksum in closed form: the bytes added to the first sum, and to the second each byte
      as often as there are bytes from it on and the first sum as often as there are bytes. */
  lemma {:induction false} ClosedForm(s: Sums, buf: seq<nat>)
    requires s.Reduced()
    ensures Plain(s, buf) ==
            Sums((s.a + SumFrom(buf, 0)) % BASE, (s.b + |buf| * s.a + WeightedFrom(buf, 0)) % BASE)
  {
    RawIs(s, buf);
    RawReduces(s, buf);
  }

  function Triangle(n: nat): (t: nat)
  {
    if n == 0 then 0 else Triangle(n - 1) + n
  }

  lemma {:induction false} TriangleIs(n: nat)
    ensures 2 * Triangle(n) == n * (n + 1)
  {
    if n > 0 {
      TriangleIs(n - 1);
      assert n * (n + 1) == (n - 1) * n + 2 * n;
    }
  }

  lemma {:induction false} TriangleGrows(m: nat, n: nat)
    requires m <= n
    ensures Triangle(m) <= Triangle(n)
    decreases n
  {
    if m < n { TriangleGrows(m, n - 1); }
  }

  lemma {:induction false} RawBound(s: Sums, buf: seq<nat>)
    requires s.Reduced() && Bytes(buf)
    ensures var r := Raw(s, buf);
            r.a <= 65520 + 255 * |buf| && r.b <= 65520 * (|buf| + 1) + 255 * Triangle(|buf|)
  {
    if buf != [] {
      RawBound(s, buf[..|buf|-1]);
    }
  }

  /** Within a block of 5552 bytes no sum leaves 32 bits, and 5552 is the largest such
      length: with one byte more the bound would not hold. */
  lemma {:induction false} BlockFits(s: Sums, buf: seq<nat>)
    requires s.Reduced() && Bytes(buf) && |buf| <= NMAX
    ensures var r := Raw(s, buf); r.a < WORD32 && r.b < WORD32
    ensures 65520 * (NMAX + 2) + 255 * Triangle(NMAX + 1) >= WORD32
  {
    RawBound(s, buf);
    TriangleGrows(|buf|, NMAX);
    TriangleIs(NMAX);
    TriangleIs(NMAX + 1);
  }

  /** A short buffer's second sum stays below 32 times the base. */
  lemma {:induction false} ShortFits(s: Sums, buf: seq<nat>)
    requires s.Reduced() && Bytes(buf) && |buf| < 16
    ensures var r := Raw(s, buf); r.a < 2 * BASE && r.b < 32 * BASE
  {
    RawBound(s, buf);
    TriangleGrows(|buf|, 15);
    TriangleIs(15);
  }

  // ------------------------------------------------------------------ the code

  /** Reduce by conditional subtraction of the base shifted by `top`, ..., 1, 0. */
  method Reduce(x: nat, top: nat) returns (r: nat)
    requires x < BASE * Power(top + 1)
    ensures r == x % BASE
  {
    r := x;
    var k := top + 1;
    while k > 0
      invariant 0 <= k <= top + 1
      invariant r < BASE * Power(k) && r % BASE == x % BASE
    {
      k := k - 1;
      if r >= BASE * Power(k) {
        SubtractMultiple(r, Power(k));
        r := r - BASE * Power(k);
      }
    }
  }

  lemma {:induction false} SubtractMultiple(x: nat, m: nat)
    requires x >= BASE * m
    ensures (x - BASE * m) % BASE == x % BASE
  {
    var q, r := x / BASE, x % BASE;
    assert x == BASE * q + r;
    var k := q - m;
    assert x - BASE * m == BASE * k + r;
    assert k < 0 ==> BASE * k + r < 0;
    DivModIs(x - BASE * m, BASE, k, r);
  }

  /** 32-bit addition. */
  function Add32(x: nat, y: nat): (r: nat)
    ensures r < WORD32 && (x + y < WORD32 ==> r == x + y)
  {
    (x + y) % WORD32
  }

  lemma {:induction false} RawNext(s: Sums, buf: seq<nat>, lo: nat, i: nat)
    requires lo <= i < |buf|
    ensures Raw(s, buf[lo..i+1]) == var p := Raw(s, buf[lo..i]); Sums(p.a + buf[i], p.b + p.a + buf[i])
  {
    var more := buf[lo..i+1];
    assert more[..|more|-1] == buf[lo..i];
  }

  /** Add the bytes from `lo` to `hi` to both sums, in 32-bit arithmetic. */
  method Accumulate(s: Sums, buf: seq<nat>, lo: nat, hi: nat) returns (r: Sums)
    requires s.Reduced() && Bytes(buf) && lo <= hi <= |buf| && hi - lo <= NMAX
    ensures r == Raw(s, buf[lo..hi]) && r.a < WORD32 && r.b < WORD32
  {
    var a, b, i := s.a, s.b, lo;
    assert buf[lo..lo] == [];
    while i < hi
      invariant lo <= i <= hi
      invariant Sums(a, b) == Raw(s, buf[lo..i])
    {
      RawNext(s, buf, lo, i);
      BlockFits(s, buf[lo..i+1]);
      a := Add32(a, buf[i]);
      b := Add32(b, a);
      i := i + 1;
    }
    BlockFits(s, buf[lo..hi]);
    r := Sums(a, b);
  }

  /** Reduce both sums after a block. */
  method ReduceBoth(s: Sums) returns (r: Sums)
    requires s.a < WORD32 && s.b < WORD32
    ensures r == Sums(s.a % BASE, s.b % BASE)
  {
    PowersOfTwo();
    var a := Reduce(s.a, 16);
    var b := Reduce(s.b, 16);
    r := Sums(a, b);
  }

  lemma {:induction false} PlainSplit(s: Sums, buf: seq<nat>, i: nat, j: nat)
    requires i <= j <= |buf|
    ensures Plain(Plain(s, buf[..i]), buf[i..j]) == Plain(s, buf[..j])
  {
    PlainConcat(s, buf[..i], buf[i..j]);
    assert buf[..i] + buf[i..j] == buf[..j];
  }

  /** Add the bytes from `lo` to `hi` and reduce. */
  method Absorb(s: Sums, buf: seq<nat>, lo: nat, hi: nat, ghost start: Sums) returns (r: Sums)
    requires s.Reduced() && Bytes(buf) && lo <= hi <= |buf| && hi - lo <= NMAX
    requires s == Plain(start, buf[..lo])
    ensures r == Plain(start, buf[..hi]) && r.Reduced()
  {
    var raw := Accumulate(s, buf, lo, hi);
    RawReduces(s, buf[lo..hi]);
    PlainSplit(start, buf, lo, hi);
    r := ReduceBoth(raw);
  }

  datatype Buffer = Null | Data(bytes: seq<nat>)

  const INITIAL: nat := 1

  /** What the checksum is: the initial value for no buffer, else the definition. */
  function Adler32(adler: nat, buf: Buffer): (r: nat)
  {
    if buf.Null? then INITIAL else Pack(Plain(Unpack(adler), buf.bytes))
  }

  /** A single byte: one conditional subtraction for each sum. */
  method AbsorbOne(s: Sums, x: nat) returns (r: Sums)
    requires s.Reduced() && x < 256
    ensures r == Plain(s, [x])
  {
    var a := if s.a + x >= BASE then s.a + x - BASE else s.a + x;
    var b := if s.b + a >= BASE then s.b + a - BASE else s.b + a;
    assert [x][..0] == [];
    assert Plain(s, [x][..0]) == s;
    r := Sums(a, b);
  }

  /** The second sum of a short buffer: five conditional subtractions. */
  method ReduceShort(x: nat) returns (r: nat)
    requires x < 32 * BASE
    ensures r == x % BASE
  {
    PowersOfTwo();
    r := Reduce(x, 4);
  }

  lemma {:induction false} ShortReduces(s: Sums, buf: seq<nat>, raw: Sums)
    requires s.Reduced() && Bytes(buf) && |buf| < 16 && raw == Raw(s, buf[0..|buf|])
    ensures raw.a < 2 * BASE && raw.b < 32 * BASE
    ensures Plain(s, buf) == Sums(raw.a % BASE, raw.b % BASE)
  {
    assert buf[0..|buf|] == buf;
    ShortFits(s, buf);
    RawReduces(s, buf);
  }

  /** Fewer than 16 bytes: one subtraction for the first sum, five for the second. */
  method AbsorbShort(s: Sums, buf: seq<nat>) returns (r: Sums)
    requires s.Reduced() && Bytes(buf) && |buf| < 16
    ensures r == Plain(s, buf)
  {
    hide Plain, Raw, Bytes;
    var raw := Accumulate(s, buf, 0, |buf|);
    ShortReduces(s, buf, raw);
    var a := if raw.a >= BASE then raw.a - BASE else raw.a;
    var b := ReduceShort(raw.b);
    r := Sums(a, b);
  }

  /** A long buffer: whole blocks, then what is left. */
  method AbsorbLong(start: Sums, buf: seq<nat>) returns (s: Sums)
    requires start.Reduced() && Bytes(buf)
    ensures s == Plain(start, buf)
  {
    s := start;
    var i := 0;
    assert buf[..0] == [];
    while |buf| - i >= NMAX
      invariant 0 <= i <= |buf| && s == Plain(start, buf[..i]) && s.Reduced()
    {
      s := Absorb(s, buf, i, i + NMAX, start);
      i := i + NMAX;
    }
    if i < |buf| {
      s := Absorb(s, buf, i, |buf|, start);
    }
    assert buf[..|buf|] == buf;
  }

  /** Update a running checksum with a buffer. */
  method ComputeAdler32(adler: nat, buffer: Buffer) returns (r: nat)
    requires buffer.Data? ==> Unpack(adler).Reduced() && Bytes(buffer.bytes)
    ensures r == Adler32(adler, buffer)
  {
    if buffer.Null? {
      return INITIAL;
    }
    var buf := buffer.bytes;
    var s := Unpack(adler);
    if |buf| == 1 {
      assert buf == [buf[0]];
      s := AbsorbOne(s, buf[0]);
    } else if |buf| < 16 {
      s := AbsorbShort(s, buf);
    } else {
      s := AbsorbLong(s, buf);
    }
    r := Pack(s);
  }
}
