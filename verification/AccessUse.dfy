/** Accesses of the cache simulation with use collection, as the simulator splits them: by set
    number, not by line.  An access within a line is one reference and one that goes on in the
    next line is two; but in a cache of one set the second kind looks like the first.  Shown
    here: the use masks tell the bytes touched since load, after every prefix of a history, if
    and only if the split is right for every access of it. */
module AccessUse {
  import opened Options
  import opened Arith
  import opened Bits
  import opened LruStack
  import opened UseMask
  import opened CacheUse

  /** `size` bytes from `addr` on; what is used of an address are remainders of divisors of the
      word size, so that wrapping around does not matter. */
  datatype Access = Access(addr: nat, size: nat)
  {
    predicate Small() { 1 <= size <= 255 }

    function Last(): (a: nat)
      requires size > 0
    {
      addr + size - 1
    }
  }

  /** `span` is the number of bytes from a line to the next one of the same set, and `turns` how
      often it goes into 32 bits, the width of the tag mask. */
  datatype Cache = Cache(sets: nat, lineSize: nat, assoc: nat, span: nat, turns: nat)
  {
    predicate Usable()
    {
      sets > 0 && lineSize > 0 && lineSize % 2 == 0 && span == sets * lineSize && 0 < assoc <= span &&
      turns >= 2 && turns * span == WORD32
    }
  }

  function LineAt(c: Cache, a: nat): (l: nat)
    requires c.lineSize > 0
  {
    DivNat(a, c.lineSize);
    a / c.lineSize
  }

  function SetAt(c: Cache, a: nat): (n: nat)
    requires c.lineSize > 0 && c.sets > 0
    ensures n < c.sets
  {
    LineAt(c, a) % c.sets
  }

  function ByteAt(c: Cache, a: nat): (x: nat)
    requires c.lineSize > 0
    ensures x < c.lineSize
  {
    a % c.lineSize
  }

  /** The tag of an address; the tag mask clears the upper half of the word. */
  function TagAt(c: Cache, a: nat): (t: nat)
    requires c.span > 0
  {
    Tag(a % WORD32, c.span)
  }

  datatype Placed = Placed(row: nat, piece: Piece)

  /** The references made for an access; none where the simulator gives up. */
  function Split(c: Cache, acc: Access): (r: Option<seq<Placed>>)
    requires c.Usable() && acc.size > 0
  {
    var first, last := acc.addr, acc.Last();
    var set1, set2 := SetAt(c, first), SetAt(c, last);
    if set1 == set2 then
      Some([Placed(set1, Whole(TagAt(c, first), ByteAt(c, first), ByteAt(c, last)))])
    else if (set1 + 1) % c.sets == set2 then
      Some([Placed(set1, Head(TagAt(c, first), ByteAt(c, first))), Placed(set2, Tail(TagAt(c, last), ByteAt(c, last)))])
    else None
  }

  // ------------------------------------------------------------------ lines

  /** The tag of line number `l`. */
  function LineTag(c: Cache, l: nat): (t: nat)
    requires c.sets > 0 && c.turns > 0
  {
    DivNat(l, c.sets);
    Times((l / c.sets) % c.turns, c.span)
  }

  function Times(x: nat, y: nat): (z: nat)
  {
    x * y
  }

  lemma {:induction false} TagOfTurn(m: nat, s: nat, span: nat, turns: nat, a: nat)
    requires s < span && turns > 0 && turns * span == WORD32 && a == m * span + s
    ensures Tag(a % WORD32, span) == (m % turns) * span
  {
    var u, v := DivMod(m, turns);
    Mixed(u, v, turns, span, s);
    TagIs(a, u, v, s, span);
  }

  lemma {:induction false} TagIs(a: nat, u: nat, v: nat, s: nat, span: nat)
    requires s < span && 0 <= v * span + s < WORD32 && a == u * WORD32 + (v * span + s)
    ensures Tag(a % WORD32, span) == v * span
  {
    DivModIs(a, WORD32, u, v * span + s);
    DivModIs(v * span + s, span, v, s);
  }

  lemma {:induction false} TagIsLineTag(c: Cache, a: nat)
    requires c.Usable()
    ensures TagAt(c, a) == LineTag(c, LineAt(c, a))
  {
    DivTwice(a, c.lineSize, c.sets);
    var m, s := DivMod(a, c.span);
    TagOfTurn(m, s, c.span, c.turns, a);
  }

  lemma {:induction false} LineTagAligned(c: Cache, l: nat)
    requires c.Usable()
    ensures LineTag(c, l) % c.span == 0
  {
    var q := (l / c.sets) % c.turns;
    DivModIs(Times(q, c.span), c.span, q, 0);
  }

  /** Lines a whole number of turns of the sets apart, but not of the tags, have different
      tags. */
  lemma {:induction false} LineTagsDiffer(c: Cache, l: nat, k: nat)
    requires c.Usable() && 0 < k < c.turns
    ensures LineTag(c, l + k * c.sets) != LineTag(c, l)
  {
    DivNat(l, c.sets);
    var q, r := l / c.sets, l % c.sets;
    Distribute(q, k, c.sets);
    Products(k, c.sets);
    DivModIs(l + k * c.sets, c.sets, q + k, r);
    TurnsDiffer(q, k, c.turns);
    SameProduct((q + k) % c.turns, q % c.turns, c.span);
  }

  lemma {:induction false} SameProduct(x: nat, y: nat, n: nat)
    requires n > 0
    ensures x * n == y * n <==> x == y
  {
    if x < y { LessTimes(x + 1, y, n); Distribute(x, 1, n); }
    if y < x { LessTimes(y + 1, x, n); Distribute(y, 1, n); }
  }

  lemma {:induction false} TurnsDiffer(q: nat, k: nat, n: nat)
    requires 0 < k < n
    ensures (q + k) % n != q % n
  {
    var u, v := q / n, q % n;
    if v + k < n { DivModIs(q + k, n, u, v + k); } else { DivModIs(q + k, n, u + 1, v + k - n); }
  }

  /** To the simulator two addresses are in the same line if and only if they are, the upper
      half of the word left aside: lines 4 GiB apart are one line. */
  lemma {:induction false} SameLineIff(c: Cache, a: nat, b: nat)
    requires c.Usable()
    ensures SetAt(c, a) == SetAt(c, b) && TagAt(c, a) == TagAt(c, b) <==>
            LineAt(c, a % WORD32) == LineAt(c, b % WORD32)
  {
    KnownLine(c, a);
    KnownLine(c, b);
    var x, y := LineAt(c, a % WORD32), LineAt(c, b % WORD32);
    SamePair(x, y, c.sets, c.span);
  }

  lemma {:induction false} SamePair(x: nat, y: nat, sets: nat, span: nat)
    requires sets > 0 && span > 0
    ensures x % sets == y % sets && x / sets * span == y / sets * span <==> x == y
  {
    DivNat(x, sets);
    DivNat(y, sets);
    var p, q := x / sets, y / sets;
    SameProduct(p, q, span);
    assert x == p * sets + x % sets && y == q * sets + y % sets;
  }

  lemma {:induction false} KnownLine(c: Cache, a: nat)
    requires c.Usable()
    ensures var l := LineAt(c, a % WORD32); SetAt(c, a) == l % c.sets && TagAt(c, a) == l / c.sets * c.span
  {
    var low, u := a % WORD32, a / WORD32;
    var l := LineAt(c, low);
    DivTwice(low, c.lineSize, c.sets);
    assert c.lineSize * c.sets == c.span;
    assert low == low / c.span * c.span + low % c.span;
    KnownSet(l, low % c.lineSize, u, c.sets, c.lineSize, c.turns);
    assert a == u * WORD32 + (l * c.lineSize + low % c.lineSize);
  }

  /** Leaving the upper half of the word aside does not change the set. */
  lemma {:induction false} KnownSet(l: nat, x: nat, u: nat, sets: nat, n: nat, turns: nat)
    requires x < n && sets > 0 && turns * (sets * n) == WORD32
    ensures var a := u * WORD32 + (l * n + x); a >= 0 && a / n >= 0 && (a / n) % sets == l % sets
  {
    var k := u * turns;
    var m := k * sets;
    Products(u, turns);
    Products(k, sets);
    TurnLines(u, turns, sets, n);
    LineOf(l, x, m, n);
    SetOf(l, k, sets);
  }

  lemma {:induction false} TurnLines(u: nat, turns: nat, sets: nat, n: nat)
    ensures u * (turns * (sets * n)) == ((u * turns) * sets) * n
  {
    var w := sets * n;
    Regroup(u, turns, w);
    Regroup(u * turns, sets, n);
  }

  lemma {:induction false} LineOf(l: nat, x: nat, m: nat, n: nat)
    requires x < n
    ensures var a := m * n + (l * n + x); a >= 0 && a / n == m + l
  {
    Products(m, n);
    Products(l, n);
    Distribute(m, l, n);
    DivModIs(m * n + (l * n + x), n, m + l, x);
  }

  lemma {:induction false} SetOf(l: nat, k: nat, sets: nat)
    requires sets > 0
    ensures k * sets >= 0 && (k * sets + l) % sets == l % sets
  {
    Products(k, sets);
    DivNat(l, sets);
    var q := l / sets;
    Distribute(k, q, sets);
    DivModIs(k * sets + l, sets, k + q, l % sets);
  }

  // ------------------------------------------------------------------ what is really touched

  /** How many line ends lie within an access. */
  function Crossed(c: Cache, acc: Access): (d: nat)
    requires c.lineSize > 0 && acc.size > 0
  {
    DivOrdered(acc.addr, acc.Last(), c.lineSize);
    LineAt(c, acc.Last()) - LineAt(c, acc.addr)
  }

  /** The part of an access that lies in the `e`-th of its lines. */
  function PieceAt(c: Cache, acc: Access, e: nat): (p: Piece)
    requires c.Usable() && acc.size > 0
  {
    var t, d := LineTag(c, LineAt(c, acc.addr) + e), Crossed(c, acc);
    if d == 0 then Whole(t, ByteAt(c, acc.addr), ByteAt(c, acc.Last()))
    else if e == 0 then Head(t, ByteAt(c, acc.addr))
    else if e < d then Whole(t, 0, c.lineSize - 1)
    else Tail(t, ByteAt(c, acc.Last()))
  }

  function Touched(c: Cache, acc: Access): (ps: seq<Placed>)
    requires c.Usable() && acc.size > 0
    ensures |ps| == Crossed(c, acc) + 1
    ensures forall e :: 0 <= e < |ps| ==>
              ps[e] == Placed((LineAt(c, acc.addr) + e) % c.sets, PieceAt(c, acc, e))
  {
    seq(Crossed(c, acc) + 1, e requires 0 <= e => Placed((LineAt(c, acc.addr) + e) % c.sets, PieceAt(c, acc, e)))
  }

  /** These pieces are the bytes of the access: a byte is accessed if and only if its line is
      one of them and the piece covers it. */
  lemma {:induction false} TouchedAreBytes(c: Cache, acc: Access, y: nat)
    requires c.Usable() && acc.size > 0
    ensures acc.addr <= y <= acc.Last() <==>
            var e := LineAt(c, y) - LineAt(c, acc.addr);
            0 <= e <= Crossed(c, acc) && PieceAt(c, acc, e).Covers(ByteAt(c, y), c.lineSize)
  {
    var n, a, b := c.lineSize, acc.addr, acc.Last();
    InOrder(a, y, n);
    InOrder(y, b, n);
  }

  /** Addresses are ordered by line and then by byte. */
  lemma {:induction false} InOrder(a: nat, b: nat, n: nat)
    requires n > 0
    ensures a <= b <==> a / n < b / n || (a / n == b / n && a % n <= b % n)
  {
    var p, r := DivMod(a, n);
    var q, s := DivMod(b, n);
    InOrderOf(p, r, q, s, n);
  }

  lemma {:induction false} InOrderOf(p: nat, r: nat, q: nat, s: nat, n: nat)
    requires r < n && s < n
    ensures p * n + r <= q * n + s <==> p < q || (p == q && r <= s)
  {
    if p < q { LessTimes(p + 1, q, n); Distribute(p, 1, n); }
    if q < p { LessTimes(q + 1, p, n); Distribute(q, 1, n); }
  }

  // ------------------------------------------------------------------ when the split is right

  /** The split is right for accesses within a line, and for those over one line end if there
      is more than one set. */
  predicate Exact(c: Cache, acc: Access)
    requires c.lineSize > 0 && acc.size > 0
  {
    Crossed(c, acc) == 0 || (Crossed(c, acc) == 1 && c.sets > 1)
  }

  /** Set numbers tell lines apart only up to the number of sets. */
  lemma {:induction false} SetsApart(l: nat, d: nat, sets: nat)
    requires sets > 0
    ensures (l + d) % sets == l % sets <==> d % sets == 0
    ensures (l % sets + 1) % sets == (l + d) % sets <==> d % sets == 1 % sets
  {
    SumMod(l, d, sets);
    var x, y := l % sets, d % sets;
    NextMod(x, sets);
    if sets > 1 { DivModIs(1, sets, 0, 1); }
  }

  lemma {:induction false} SumMod(l: nat, d: nat, sets: nat)
    requires sets > 0
    ensures var x, y := l % sets, d % sets; (l + d) % sets == if x + y < sets then x + y else x + y - sets
  {
    DivNat(l, sets);
    DivNat(d, sets);
    var q, x, p, y := l / sets, l % sets, d / sets, d % sets;
    Distribute(q, p, sets);
    Distribute(q + p, 1, sets);
    if x + y < sets {
      DivModIs(l + d, sets, q + p, x + y);
    } else {
      DivModIs(l + d, sets, q + p + 1, x + y - sets);
    }
  }

  lemma {:induction false} NextMod(x: nat, sets: nat)
    requires x < sets
    ensures (x + 1) % sets == if x + 1 < sets then x + 1 else 0
  {
    if x + 1 == sets {
      DivModIs(x + 1, sets, 1, 0);
    } else {
      DivModIs(x + 1, sets, 0, x + 1);
    }
  }

  lemma {:induction false} SmallMod(d: nat, sets: nat)
    requires d < sets
    ensures d % sets == d
  {
    DivModIs(d, sets, 0, d);
  }

  lemma {:induction false} ExactSplit(c: Cache, acc: Access)
    requires c.Usable() && acc.size > 0 && Exact(c, acc)
    ensures Split(c, acc) == Some(Touched(c, acc))
  {
    var l, d := LineAt(c, acc.addr), Crossed(c, acc);
    TagIsLineTag(c, acc.addr);
    TagIsLineTag(c, acc.Last());
    SetsApart(l, d, c.sets);
    if d == 0 {
      SmallMod(0, c.sets);
      assert Touched(c, acc) == [Placed(l % c.sets, PieceAt(c, acc, 0))];
    } else {
      SmallMod(1, c.sets);
      assert Touched(c, acc) == [Placed(l % c.sets, PieceAt(c, acc, 0)), Placed((l + 1) % c.sets, PieceAt(c, acc, 1))];
    }
  }

  /** Small accesses do not go around the tags. */
  lemma {:induction false} CrossedFew(c: Cache, acc: Access)
    requires c.Usable() && acc.Small()
    ensures Crossed(c, acc) < c.turns * c.sets
  {
    var d, n := Crossed(c, acc), c.lineSize;
    CrossedBytes(acc.addr, acc.Last(), n);
    HalfSpan(c);
    Regroup(c.turns, c.sets, n);
    Products(c.turns, c.sets);
    if d >= c.turns * c.sets { LessTimes(c.turns * c.sets, d, n); }
  }

  lemma {:induction false} CrossedBytes(a: nat, b: nat, n: nat)
    requires n > 0 && a <= b
    ensures (b / n - a / n) * n < n + (b - a)
  {
    var p, q := a / n, b / n;
    Distribute(q, -p, n);
  }

  lemma {:induction false} HalfSpan(c: Cache)
    requires c.Usable()
    ensures 2 * c.lineSize <= WORD32
  {
    LessTimes(2, c.turns, c.span);
    Products(c.sets, c.lineSize);
  }

  // ------------------------------------------------------------------ one set at a time

  /** The pieces that go to set `n`, in order. */
  function PiecesIn(ps: seq<Placed>, n: nat): (r: seq<Piece>)
  {
    if ps == [] then []
    else
      var rest, last := PiecesIn(ps[..|ps|-1], n), ps[|ps|-1];
      if last.row == n then rest + [last.piece] else rest
  }

  lemma {:induction false} PiecesInConcat(p: seq<Placed>, q: seq<Placed>, n: nat)
    ensures PiecesIn(p + q, n) == PiecesIn(p, n) + PiecesIn(q, n)
    decreases |q|
  {
    if q == [] {
      assert p + q == p;
    } else {
      var front := q[..|q|-1];
      PiecesInConcat(p, front, n);
      assert (p + q)[..|p + q|-1] == p + front;
    }
  }

  /** The last piece of a set is the last one placed there. */
  lemma {:induction false} LastIn(ps: seq<Placed>, n: nat, e: nat)
    requires e < |ps| && ps[e].row == n && forall f :: e < f < |ps| ==> ps[f].row != n
    ensures var r := PiecesIn(ps, n); r != [] && r[|r|-1] == ps[e].piece
    decreases |ps|
  {
    if e < |ps| - 1 { LastIn(ps[..|ps|-1], n, e); }
  }

  predicate InRangeAll(ps: seq<Placed>, span: nat, lineSize: nat)
  {
    span > 0 && forall k :: 0 <= k < |ps| ==> ps[k].piece.InRange(lineSize) && ps[k].piece.tag % span == 0
  }

  lemma {:induction false} PiecesInRange(ps: seq<Placed>, n: nat, span: nat, lineSize: nat)
    requires InRangeAll(ps, span, lineSize)
    ensures AllInRange(PiecesIn(ps, n), span, lineSize)
  {
    if ps != [] { PiecesInRange(ps[..|ps|-1], n, span, lineSize); }
  }

  lemma {:induction false} SplitInRange(c: Cache, acc: Access)
    requires c.Usable() && acc.size > 0 && Split(c, acc).Some?
    ensures InRangeAll(Split(c, acc).value, c.span, c.lineSize)
  {
    TagIsLineTag(c, acc.addr);
    TagIsLineTag(c, acc.Last());
    LineTagAligned(c, LineAt(c, acc.addr));
    LineTagAligned(c, LineAt(c, acc.Last()));
  }

  // ------------------------------------------------------------------ histories

  /** Accesses of one to 255 bytes on which the simulator does not give up. */
  predicate Survives(c: Cache, h: seq<Access>)
    requires c.Usable()
  {
    forall m :: 0 <= m < |h| ==> h[m].Small() && Split(c, h[m]).Some?
  }

  /** All references made, and all parts of lines really touched. */
  function Coded(c: Cache, h: seq<Access>): (ps: seq<Placed>)
    requires c.Usable() && Survives(c, h)
  {
    if h == [] then [] else Coded(c, h[..|h|-1]) + Split(c, h[|h|-1]).value
  }

  function Real(c: Cache, h: seq<Access>): (ps: seq<Placed>)
    requires c.Usable() && Survives(c, h)
  {
    if h == [] then [] else Real(c, h[..|h|-1]) + Touched(c, h[|h|-1])
  }

  lemma {:induction false} CodedInRange(c: Cache, h: seq<Access>)
    requires c.Usable() && Survives(c, h)
    ensures InRangeAll(Coded(c, h), c.span, c.lineSize)
  {
    if h != [] {
      CodedInRange(c, h[..|h|-1]);
      SplitInRange(c, h[|h|-1]);
    }
  }

  lemma {:induction false} ExactCoded(c: Cache, h: seq<Access>)
    requires c.Usable() && Survives(c, h) && forall m :: 0 <= m < |h| ==> Exact(c, h[m])
    ensures Coded(c, h) == Real(c, h)
  {
    if h != [] {
      ExactCoded(c, h[..|h|-1]);
      ExactSplit(c, h[|h|-1]);
    }
  }

  /** Set `n` after the references made for a history. */
  function SetAfter(c: Cache, start: seq<nat>, end: seq<nat>, h: seq<Access>, n: nat): (s: State)
    requires c.Usable() && Survives(c, h) && |start| == |end| == c.lineSize
    ensures Valid(s, c.span) && |s.entries| == |s.use| == c.assoc
  {
    CodedInRange(c, h);
    PiecesInRange(Coded(c, h), n, c.span, c.lineSize);
    After(Refs(PiecesIn(Coded(c, h), n), start, end, c.span, c.lineSize), c.assoc, c.span)
  }

  /** The set holds the lines most recently touched, and the use mask of each says which parts
      were touched since it was loaded. */
  ghost predicate Tells(c: Cache, start: seq<nat>, end: seq<nat>, h: seq<Access>, n: nat)
    requires c.Usable() && Survives(c, h) && |start| == |end| == c.lineSize
  {
    var s, truth := SetAfter(c, start, end, h, n), PiecesIn(Real(c, h), n);
    var tags := TagsOf(s.entries, c.span);
    tags == Resident(PieceTags(truth), c.assoc) &&
    forall k, b :: 0 <= k < c.assoc && 0 <= b < 32 ==>
      (Bit(s.use[Pointers(s.entries, c.span)[k]].mask, b) <==>
         tags[k] !in tags[..k] && PartUsedSinceLoad(truth, tags[k], b, c.lineSize, c.assoc))
  }

  lemma {:induction false} TouchedFits(c: Cache, acc: Access)
    requires c.Usable() && acc.size > 0
    ensures forall e :: 0 <= e < |Touched(c, acc)| ==>
              Touched(c, acc)[e].piece.Fits(c.lineSize) && Touched(c, acc)[e].piece.tag % c.span == 0
  {
    InOrder(acc.addr, acc.Last(), c.lineSize);
    forall e | 0 <= e < |Touched(c, acc)|
      ensures Touched(c, acc)[e].piece.Fits(c.lineSize) && Touched(c, acc)[e].piece.tag % c.span == 0
    {
      LineTagAligned(c, LineAt(c, acc.addr) + e);
    }
  }

  predicate PlacedFit(ps: seq<Placed>, span: nat, lineSize: nat)
  {
    span > 0 && forall k :: 0 <= k < |ps| ==> ps[k].piece.Fits(lineSize) && ps[k].piece.tag % span == 0
  }

  lemma {:induction false} RealFits(c: Cache, h: seq<Access>)
    requires c.Usable() && Survives(c, h)
    ensures PlacedFit(Real(c, h), c.span, c.lineSize)
  {
    if h != [] {
      RealFits(c, h[..|h|-1]);
      TouchedFits(c, h[|h|-1]);
    }
  }

  lemma {:induction false} PiecesFit(ps: seq<Placed>, n: nat, span: nat, lineSize: nat)
    requires PlacedFit(ps, span, lineSize)
    ensures AllFit(PiecesIn(ps, n), span, lineSize)
  {
    if ps != [] { PiecesFit(ps[..|ps|-1], n, span, lineSize); }
  }

  lemma {:induction false} SpanEven(c: Cache)
    requires c.Usable()
    ensures c.span % 2 == 0
  {
    var h := c.lineSize / 2;
    assert c.span == 2 * (c.sets * h);
  }

  lemma {:induction false} ExactTells(c: Cache, start: seq<nat>, end: seq<nat>, h: seq<Access>, n: nat)
    requires c.Usable() && Survives(c, h) && Tables(start, end, c.lineSize)
    requires forall m :: 0 <= m < |h| ==> Exact(c, h[m])
    ensures Tells(c, start, end, h, n)
  {
    ExactCoded(c, h);
    RealFits(c, h);
    SpanEven(c);
    var truth := PiecesIn(Real(c, h), n);
    PiecesFit(Real(c, h), n, c.span, c.lineSize);
    forall k, b | 0 <= k < c.assoc && 0 <= b < 32
      ensures var s := SetAfter(c, start, end, h, n);
              var tags := TagsOf(s.entries, c.span);
              Bit(s.use[Pointers(s.entries, c.span)[k]].mask, b) <==>
                tags[k] !in tags[..k] && PartUsedSinceLoad(truth, tags[k], b, c.lineSize, c.assoc)
    {
      MaskIffBytesTouched(truth, start, end, c.lineSize, c.assoc, c.span, b, k);
    }
    MaskIffBytesTouched(truth, start, end, c.lineSize, c.assoc, c.span, 0, 0);
  }

  // ------------------------------------------------------------------ when it is not

  lemma {:induction false} FrontIsLast(tags: seq<nat>, assoc: nat)
    requires tags != [] && assoc > 0
    ensures Resident(tags, assoc)[0] == tags[|tags|-1]
  {
  }

  /** The tags in a set are those of the references made, whatever their masks. */
  lemma {:induction false} TagsAfter(c: Cache, start: seq<nat>, end: seq<nat>, h: seq<Access>, n: nat)
    requires c.Usable() && Survives(c, h) && |start| == |end| == c.lineSize
    ensures TagsOf(SetAfter(c, start, end, h, n).entries, c.span) ==
            Resident(PieceTags(PiecesIn(Coded(c, h), n)), c.assoc)
  {
    CodedInRange(c, h);
    var ps := PiecesIn(Coded(c, h), n);
    PiecesInRange(Coded(c, h), n, c.span, c.lineSize);
    var r := Refs(ps, start, end, c.span, c.lineSize);
    SpanEven(c);
    MaskIffTouched(r, c.assoc, c.span, 0, 0);
    assert Tags(r) == PieceTags(ps);
  }

  /** In the set of its first line a wrong split leaves the first line in front. */
  lemma {:induction false} SplitEnds(c: Cache, acc: Access)
    requires c.Usable() && acc.size > 0 && Split(c, acc).Some?
    ensures var r := PiecesIn(Split(c, acc).value, SetAt(c, acc.addr));
            r != [] && r[|r|-1].tag == LineTag(c, LineAt(c, acc.addr))
  {
    TagIsLineTag(c, acc.addr);
    LastIn(Split(c, acc).value, SetAt(c, acc.addr), 0);
  }

  /** But another line of that set was touched last. */
  lemma {:induction false} TouchedEnds(c: Cache, acc: Access)
    requires c.Usable() && acc.Small() && Split(c, acc).Some? && !Exact(c, acc)
    ensures var r := PiecesIn(Touched(c, acc), SetAt(c, acc.addr));
            r != [] && r[|r|-1].tag != LineTag(c, LineAt(c, acc.addr))
  {
    var l, d := LineAt(c, acc.addr), Crossed(c, acc);
    SetsApart(l, d, c.sets);
    CrossedFew(c, acc);
    var e := if d % c.sets == 0 then d else d - 1;
    var k := EvenTurns(d, e, c.sets, c.turns);
    SetsApart(l, e, c.sets);
    LastIn(Touched(c, acc), SetAt(c, acc.addr), e);
    LineTagsDiffer(c, l, k);
  }

  /** An uneven split leaves out a whole number of rounds of the sets. */
  lemma {:induction false} EvenTurns(d: nat, e: int, sets: nat, turns: nat) returns (k: nat)
    requires sets > 0 && d < turns * sets && d > 0 && (d == 1 ==> sets == 1)
    requires if d % sets == 0 then e == d else e == d - 1 && d % sets == 1 % sets
    ensures 0 < e && e == k * sets && 0 < k < turns && e % sets == 0
  {
    var q := d / sets;
    assert d == q * sets + d % sets;
    if sets > 1 { DivModIs(1, sets, 0, 1); }
    k := q;
    assert e == q * sets;
    assert q >= turns ==> q * sets >= turns * sets;
    DivModIs(q * sets, sets, q, 0);
  }

  lemma {:induction false} InexactFails(c: Cache, start: seq<nat>, end: seq<nat>, h: seq<Access>)
    requires c.Usable() && Survives(c, h) && |start| == |end| == c.lineSize && h != [] && !Exact(c, h[|h|-1])
    ensures !Tells(c, start, end, h, SetAt(c, h[|h|-1].addr))
  {
    hide Split, Touched, PiecesIn, Resident, Exact, SetAfter, PartUsedSinceLoad;
    var before, acc := h[..|h|-1], h[|h|-1];
    var n := SetAt(c, acc.addr);
    TagsAfter(c, start, end, h, n);
    PiecesInConcat(Coded(c, before), Split(c, acc).value, n);
    PiecesInConcat(Real(c, before), Touched(c, acc), n);
    SplitEnds(c, acc);
    TouchedEnds(c, acc);
    FrontIsLast(PieceTags(PiecesIn(Coded(c, h), n)), c.assoc);
    FrontIsLast(PieceTags(PiecesIn(Real(c, h), n)), c.assoc);
  }

  /** After the first `j` accesses set `n` tells what was touched. */
  ghost predicate TellsAfter(c: Cache, start: seq<nat>, end: seq<nat>, h: seq<Access>, j: nat, n: nat)
    requires c.Usable() && |start| == |end| == c.lineSize && j <= |h|
  {
    Survives(c, h[..j]) && Tells(c, start, end, h[..j], n)
  }

  /** The simulator gets along with the history, and after each access every set tells what
      was touched. */
  ghost predicate AlwaysTells(c: Cache, start: seq<nat>, end: seq<nat>, h: seq<Access>)
    requires c.Usable() && |start| == |end| == c.lineSize
  {
    Survives(c, h) &&
    forall j, n :: 0 <= j <= |h| && 0 <= n < c.sets ==> TellsAfter(c, start, end, h, j, n)
  }

  predicate AllExact(c: Cache, h: seq<Access>)
    requires c.lineSize > 0
  {
    forall m :: 0 <= m < |h| ==> h[m].Small() && Exact(c, h[m])
  }

  lemma {:induction false} ExactAlwaysTells(c: Cache, start: seq<nat>, end: seq<nat>, h: seq<Access>)
    requires c.Usable() && Tables(start, end, c.lineSize) && AllExact(c, h)
    ensures AlwaysTells(c, start, end, h)
  {
    hide Exact, Split, Tells;
    forall m | 0 <= m < |h| ensures Split(c, h[m]).Some? { ExactSplit(c, h[m]); }
    forall j, n | 0 <= j <= |h| && 0 <= n < c.sets ensures TellsAfter(c, start, end, h, j, n) {
      ExactTells(c, start, end, h[..j], n);
    }
  }

  lemma {:induction false} InexactFailsOnce(c: Cache, start: seq<nat>, end: seq<nat>, h: seq<Access>, m: nat)
    requires c.Usable() && |start| == |end| == c.lineSize && Survives(c, h) && m < |h| && !Exact(c, h[m])
    ensures !TellsAfter(c, start, end, h, m + 1, SetAt(c, h[m].addr))
  {
    hide Exact, Split, Tells, SetAt;
    assert h[..m+1][|h[..m+1]|-1] == h[m];
    InexactFails(c, start, end, h[..m+1]);
  }

  /** For every history of small accesses: the use masks are right after each of them if and
      only if none crosses a line end, or each crosses at most one and there is more than one
      set. */
  lemma {:induction false} UseRightIff(c: Cache, start: seq<nat>, end: seq<nat>, h: seq<Access>)
    requires c.Usable() && Tables(start, end, c.lineSize) && forall acc :: acc in h ==> acc.Small()
    ensures AlwaysTells(c, start, end, h) <==> AllExact(c, h)
  {
    hide TellsAfter, Exact, SetAt;
    if AllExact(c, h) {
      ExactAlwaysTells(c, start, end, h);
    } else if Survives(c, h) {
      var m :| 0 <= m < |h| && !Exact(c, h[m]);
      InexactFailsOnce(c, start, end, h, m);
    }
  }

  /** Eight bytes at offset 60 of a line, in a cache of 512 bytes with eight ways of 64 bytes
      and hence one set: the second line is not referenced, and of the first one nothing is
      marked although its last four bytes are touched. */
  lemma {:induction false} OneSetLosesStraddle(start: seq<nat>, end: seq<nat>, b: nat)
    requires Tables(start, end, 64) && b < 32
    ensures var c, acc := Cache(1, 64, 8, 64, 0x400_0000), Access(60, 8);
            c.Usable() && Split(c, acc) == Some([Placed(0, Whole(0, 60, 3))]) &&
            Touched(c, acc) == [Placed(0, Head(0, 60)), Placed(0, Tail(64, 3))]
    ensures !Bit(MaskOf(Whole(0, 60, 3), start, end, 64), b)
    ensures TouchesPart(Head(0, 60), b, 64) <==> b >= 30
  {
    var c, acc := Cache(1, 64, 8, 64, 0x400_0000), Access(60, 8);
    assert Crossed(c, acc) == 1;
    assert LineTag(c, 0) == 0 && LineTag(c, 1) == 64;
    assert Touched(c, acc) == [Placed(0, Head(0, 60)), Placed(0, Tail(64, 3))];
    BitAnd(start[60], end[3], b);
    assert StartMask(start[60], 60, 64) && EndMask(end[3], 3, 64);
    MaskOfPiece(Head(0, 60), start, end, 64, b);
  }
}
