/** Cachegrind's cache simulator: tag arrays updated in place, and straddling accesses.
    Every cache keeps, as a ghost, the blocks referenced in it since it was cleared; its
    invariant says what each set's tag array holds for any such history. */
module CacheSim {
  import opened Arith
  import opened LruStack

  /** Memory blocks touched by an access of `size` bytes at `a`, in the order they are
      looked up; empty when the simulator gives up because they are not one line or two
      adjacent lines.  Address arithmetic wraps at the word size. */
  function Blocks(a: nat, size: nat, lineSize: nat): (bs: seq<nat>)
    requires lineSize > 0
    ensures |bs| <= 2
  {
    var block1 := a / lineSize;
    var block2 := ((a + size - 1) % WORD) / lineSize;
    if block1 == block2 then [block1]
    else if (block1 + 1) % WORD == block2 then [block1, block2]
    else []
  }

  /** Numbers less than `d` apart have the same quotient or consecutive ones. */
  lemma {:induction false} QuotientStep(x: nat, y: nat, d: nat)
    requires 0 < d && x <= y < x + d
    ensures y / d == x / d || y / d == x / d + 1
  {
    var q, r := x / d, x % d;
    assert x == q * d + r;
    if y < q * d + d {
      DivModIs(y, d, q, y - q * d);
    } else {
      assert (q + 1) * d == q * d + d;
      DivModIs(y, d, q + 1, y - q * d - d);
    }
  }

  /** Does an access of `size` bytes at `a` touch line `b`? */
  ghost predicate TouchesLine(a: nat, size: nat, lineSize: nat, b: nat)
    requires lineSize > 0
  {
    exists x: nat :: a <= x < a + size && x / lineSize == b
  }

  /** Does it go beyond the line behind its first one? */
  ghost predicate ReachesThird(a: nat, size: nat, lineSize: nat)
    requires lineSize > 0
  {
    exists x: nat :: a <= x < a + size && x / lineSize >= a / lineSize + 2
  }

  /** `bs` are the lines touched, from the lowest to the highest. */
  ghost predicate AreLines(bs: seq<nat>, a: nat, size: nat, lineSize: nat)
    requires lineSize > 0
  {
    (forall i, j :: 0 <= i < j < |bs| ==> bs[i] < bs[j]) &&
    forall b: nat :: b in bs <==> TouchesLine(a, size, lineSize, b)
  }

  lemma {:induction false} TouchesBetween(a: nat, size: nat, lineSize: nat, b: nat)
    requires lineSize > 0 && size > 0
    ensures TouchesLine(a, size, lineSize, b) <==> a / lineSize <= b <= (a + size - 1) / lineSize
  {
    var last := a + size - 1;
    if TouchesLine(a, size, lineSize, b) {
      var x: nat :| a <= x < a + size && x / lineSize == b;
      DivOrdered(a, x, lineSize);
      DivOrdered(x, last, lineSize);
    }
    if a / lineSize <= b <= last / lineSize {
      var x := ByteOfLine(a, last, lineSize, b);
    }
  }

  lemma {:induction false} ByteOfLine(a: nat, last: nat, n: nat, b: nat) returns (x: nat)
    requires n > 0 && a <= last && a / n <= b <= last / n
    ensures a <= x <= last && x / n == b
  {
    if b == a / n {
      x := a;
    } else {
      x := b * n;
      LessTimes(a / n + 1, b, n);
      LessTimes(b, last / n, n);
      DivModIs(x, n, b, 0);
    }
  }

  /** For every access that does not wrap: the lines looked up are exactly those it touches, in
      increasing order; and the simulator gives up exactly when it reaches a third line. */
  lemma {:induction false} BlocksAreLines(a: nat, size: nat, lineSize: nat)
    requires 1 <= size && a + size <= WORD && lineSize > 0
    ensures Blocks(a, size, lineSize) != [] ==> AreLines(Blocks(a, size, lineSize), a, size, lineSize)
    ensures Blocks(a, size, lineSize) == [] <==> ReachesThird(a, size, lineSize)
  {
    var last := a + size - 1;
    var p, q := a / lineSize, last / lineSize;
    DivModIs(last, WORD, 0, last);
    DivOrdered(a, last, lineSize);
    QuotientBound(last, lineSize);
    SmallBlock(p, q);
    if ReachesThird(a, size, lineSize) {
      var x: nat :| a <= x < a + size && x / lineSize >= p + 2;
      DivOrdered(x, last, lineSize);
    }
    if q >= p + 2 { assert a <= last < a + size; }
    forall b: nat ensures TouchesLine(a, size, lineSize, b) <==> p <= b <= q { TouchesBetween(a, size, lineSize, b); }
  }

  /** The simulator never gives up on an access no longer than a line, unless it wraps. */
  lemma {:induction false} ShortAccessNeverPanics(a: nat, size: nat, lineSize: nat)
    requires 1 <= size <= lineSize && 1 < lineSize && a + size <= WORD
    ensures Blocks(a, size, lineSize) != []
  {
    hide Blocks, AreLines;
    BlocksAreLines(a, size, lineSize);
    forall x: nat | a <= x < a + size ensures x / lineSize < a / lineSize + 2 {
      QuotientStep(a, x, lineSize);
    }
  }

  lemma {:induction false} QuotientBound(x: nat, d: nat)
    requires d > 0
    ensures 0 <= x / d <= x
  {
    DivNat(x, d);
    LessTimes(1, d, x / d);
    assert x == x / d * d + x % d;
  }

  /** The next line number wraps only behind the last one. */
  lemma {:induction false} SmallBlock(p: nat, q: nat)
    requires p <= q < WORD
    ensures (p + 1) % WORD == q <==> p + 1 == q || (q == 0 && p + 1 == WORD)
  {
    if p + 1 < WORD { DivModIs(p + 1, WORD, 0, p + 1); } else { DivModIs(p + 1, WORD, 1, 0); }
  }

  /** The part of a history that falls into set `n`. */
  function InSet(refs: seq<nat>, sets: nat, n: nat): (r: seq<nat>)
    requires sets > 0
  {
    if refs == [] then []
    else
      var last, before := refs[|refs|-1], InSet(refs[..|refs|-1], sets, n);
      if last % sets == n then before + [last] else before
  }

  lemma {:induction false} InSetStep(refs: seq<nat>, b: nat, sets: nat, n: nat)
    requires sets > 0
    ensures InSet(refs + [b], sets, n) ==
            if b % sets == n then InSet(refs, sets, n) + [b] else InSet(refs, sets, n)
  {
    assert (refs + [b])[..|refs|] == refs;
  }

  /** Does looking up block `b` miss, after the history `refs`? */
  predicate BlockMisses(refs: seq<nat>, b: nat, sets: nat, assoc: nat)
    requires sets > 0
  {
    b !in Resident(InSet(refs, sets, b % sets), assoc)
  }

  /** An access misses if any of its blocks does, each looked up after the one before it. */
  predicate RefMisses(refs: seq<nat>, bs: seq<nat>, sets: nat, assoc: nat)
    requires sets > 0
    decreases |bs|
  {
    bs != [] &&
    (BlockMisses(refs, bs[0], sets, assoc) || RefMisses(refs + bs[..1], bs[1..], sets, assoc))
  }

  lemma {:induction false} RefMissesTwo(refs: seq<nat>, b1: nat, b2: nat, sets: nat, assoc: nat)
    requires sets > 0
    ensures RefMisses(refs, [b1], sets, assoc) <==> BlockMisses(refs, b1, sets, assoc)
    ensures RefMisses(refs, [b1, b2], sets, assoc) <==>
            BlockMisses(refs, b1, sets, assoc) || BlockMisses(refs + [b1], b2, sets, assoc)
  {
    assert [b1][1..] == [] && [b1, b2][..1] == [b1] && [b1, b2][1..] == [b2] && [b2][1..] == [];
    assert RefMisses(refs + [b1], [b2], sets, assoc) <==> BlockMisses(refs + [b1], b2, sets, assoc);
  }

  /** That is: one of its blocks is not there after the earlier ones have been looked up. */
  lemma {:induction false} RefMissesIff(refs: seq<nat>, bs: seq<nat>, sets: nat, assoc: nat)
    requires sets > 0
    ensures RefMisses(refs, bs, sets, assoc) <==>
            exists k :: 0 <= k < |bs| && BlockMisses(refs + bs[..k], bs[k], sets, assoc)
    decreases |bs|
  {
    hide BlockMisses;
    if bs != [] {
      var more, rest := refs + bs[..1], bs[1..];
      RefMissesIff(more, rest, sets, assoc);
      assert refs + bs[..0] == refs;
      forall k | 0 <= k < |rest| ensures more + rest[..k] == refs + bs[..k+1] && rest[k] == bs[k+1] { }
      if RefMisses(more, rest, sets, assoc) {
        var k :| 0 <= k < |rest| && BlockMisses(more + rest[..k], rest[k], sets, assoc);
        assert BlockMisses(refs + bs[..k+1], bs[k+1], sets, assoc);
      }
      if k :| 0 < k < |bs| && BlockMisses(refs + bs[..k], bs[k], sets, assoc) {
        assert BlockMisses(more + rest[..k-1], rest[k-1], sets, assoc);
      }
    }
  }

  /** Number of misses of a trace of accesses (each the list of its blocks). */
  function Misses(refs: seq<nat>, trace: seq<seq<nat>>, sets: nat, assoc: nat): (m: nat)
    requires sets > 0
    ensures m <= |trace|
    decreases |trace|
  {
    if trace == [] then 0
    else
      (if RefMisses(refs, trace[0], sets, assoc) then 1 else 0)
      + Misses(refs + trace[0], trace[1..], sets, assoc)
  }

  // ------------------------------------------------- what the history says about hits

  lemma {:induction false} InSetMember(refs: seq<nat>, sets: nat, n: nat, x: nat)
    requires sets > 0
    ensures x in InSet(refs, sets, n) <==> x in refs && x % sets == n
  {
    if refs != [] {
      var before := refs[..|refs|-1];
      InSetMember(before, sets, n, x);
      assert refs == before + [refs[|refs|-1]];
    }
  }

  lemma {:induction false} SinceLastUseStep(refs: seq<nat>, y: nat, b: nat)
    requires b in refs && y != b
    ensures SinceLastUse(refs + [y], b) == SinceLastUse(refs, b) + {y}
  {
    assert (refs + [y])[..|refs|] == refs;
    assert (refs + [y])[LastUse(refs, b)+1..] == refs[LastUse(refs, b)+1..] + [y];
  }

  lemma {:induction false} InSetSinceLastUse(refs: seq<nat>, sets: nat, b: nat, x: nat)
    requires sets > 0 && b in refs
    ensures b in InSet(refs, sets, b % sets)
    ensures x in SinceLastUse(InSet(refs, sets, b % sets), b) <==>
            x in SinceLastUse(refs, b) && x % sets == b % sets
  {
    var last, before := refs[|refs|-1], refs[..|refs|-1];
    assert refs == before + [last];
    InSetMember(refs, sets, b % sets, b);
    if last != b {
      InSetSinceLastUse(before, sets, b, x);
      SinceLastUseStep(before, last, b);
      if last % sets == b % sets {
        SinceLastUseStep(InSet(before, sets, b % sets), last, b);
      }
    }
  }

  /** The other blocks of `b`'s set referenced since the latest use of `b`. */
  function RivalsSince(refs: seq<nat>, b: nat, sets: nat): set<nat>
    requires sets > 0 && b in refs
  {
    set x | x in SinceLastUse(refs, b) && x % sets == b % sets
  }

  /** After any history, a block used before hits exactly when fewer than `assoc` other
      blocks of its set were used since.  A block never used misses, except block 0 in a
      set that is not yet full: cleared tags equal block 0. */
  lemma {:induction false} HitIffFewRivals(refs: seq<nat>, b: nat, sets: nat, assoc: nat)
    requires sets > 0
    ensures !BlockMisses(refs, b, sets, assoc) <==>
              if b in refs then |RivalsSince(refs, b, sets)| < assoc
              else b == 0 && |Elems(InSet(refs, sets, 0))| < assoc
  {
    var n := b % sets;
    InSetMember(refs, sets, n, b);
    HitIffRecentlyUsed(InSet(refs, sets, n), assoc, b);
    if b in refs {
      forall x
        ensures x in SinceLastUse(InSet(refs, sets, n), b) <==> x in RivalsSince(refs, b, sets)
      {
        InSetSinceLastUse(refs, sets, b, x);
      }
      assert SinceLastUse(InSet(refs, sets, n), b) == RivalsSince(refs, b, sets);
    }
  }

  // ------------------------------------------------- stack inclusion

  lemma {:induction false} RefMissesMonotone(refs: seq<nat>, bs: seq<nat>, sets: nat, a: nat, b: nat)
    requires sets > 0 && a <= b
    ensures RefMisses(refs, bs, sets, b) ==> RefMisses(refs, bs, sets, a)
    decreases |bs|
  {
    if bs != [] {
      var held := InSet(refs, sets, bs[0] % sets);
      ResidentPrefix(held, a, b);
      assert bs[0] in Resident(held, b)[..a] ==> bs[0] in Resident(held, b);
      RefMissesMonotone(refs + bs[..1], bs[1..], sets, a, b);
    }
  }

  /** With equal set count and line size, the cache with more ways misses on a subset of
      the accesses, so never more often, over every trace and from every history. */
  lemma {:induction false} MoreWaysNeverMissMore(refs: seq<nat>, trace: seq<seq<nat>>, sets: nat,
                                                 a: nat, b: nat)
    requires sets > 0 && a <= b
    ensures Misses(refs, trace, sets, b) <= Misses(refs, trace, sets, a)
    decreases |trace|
  {
    if trace != [] {
      RefMissesMonotone(refs, trace[0], sets, a, b);
      MoreWaysNeverMissMore(refs + trace[0], trace[1..], sets, a, b);
    }
  }

  // ------------------------------------------------- the simulated cache

  lemma {:induction false} SetBounds(n: nat, sets: nat, assoc: nat)
    requires n < sets
    ensures 0 <= n * assoc && n * assoc + assoc <= sets * assoc
  {
    assert n * assoc + assoc == (n + 1) * assoc;
    assert (n + 1) * assoc <= sets * assoc;
  }

  lemma {:induction false} SetsDisjoint(n: nat, m: nat, assoc: nat)
    requires n != m
    ensures n * assoc + assoc <= m * assoc || m * assoc + assoc <= n * assoc
  {
    if n < m {
      SetBounds(n, m, assoc);
    } else {
      SetBounds(m, n, assoc);
    }
  }

  /** What the simulators do to a set of tags once they know where the tag goes: move the
      `i` entries starting at `base` down by one and install `tag` in front. */
  method MoveToFront(tags: array<nat>, base: nat, i: nat, tag: nat)
    requires base + i < tags.Length
    modifies tags
    ensures forall k :: 0 <= k < tags.Length ==>
              tags[k] == if k == base then tag
                         else if base < k <= base + i then old(tags[k-1]) else old(tags[k])
  {
    var j := i;
    while j > 0
      invariant 0 <= j <= i
      invariant forall k :: 0 <= k < tags.Length ==>
                  tags[k] == if base + j < k <= base + i then old(tags[k-1]) else old(tags[k])
    {
      tags[base+j] := tags[base+j-1];
      j := j - 1;
    }
    tags[base] := tag;
  }

  lemma {:induction false} FrontOnHit(s: seq<nat>, r: seq<nat>, i: nat)
    requires i < |s| == |r| && s[i] !in s[..i]
    requires r[0] == s[i] && forall k :: 0 < k <= i ==> r[k] == s[k-1]
    requires forall k :: i < k < |s| ==> r[k] == s[k]
    ensures r == Touch(s, s[i])
  {
    IndexUnique(s, s[i], i);
    assert r == [s[i]] + s[..i] + s[i+1..];
  }

  lemma {:induction false} FrontOnMiss(s: seq<nat>, r: seq<nat>, tag: nat)
    requires 0 < |s| == |r| && tag !in s
    requires forall k :: 0 <= k < |s| ==> r[k] == if k == 0 then tag else s[k-1]
    ensures r == Touch(s, tag)
  {
  }

  /** Look up `tag` in the `assoc` entries starting at `base` and make it the first. */
  method SegmentRef(tags: array<nat>, base: nat, assoc: nat, tag: nat) returns (miss: bool)
    requires assoc > 0 && base + assoc <= tags.Length
    modifies tags
    ensures tags[base..base+assoc] == Touch(old(tags[base..base+assoc]), tag)
    ensures miss <==> tag !in old(tags[base..base+assoc])
    ensures forall k :: 0 <= k < tags.Length && !(base <= k < base + assoc) ==> tags[k] == old(tags[k])
  {
    ghost var s := tags[base..base+assoc];
    if tag == tags[base] {
      FrontOnHit(s, s, 0);
      return false;
    }
    var i := 1;
    while i < assoc
      invariant 1 <= i <= assoc
      invariant forall k :: 0 <= k < i ==> s[k] != tag
    {
      if tag == tags[base+i] {
        MoveToFront(tags, base, i, tag);
        FrontOnHit(s, tags[base..base+assoc], i);
        return false;
      }
      i := i + 1;
    }
    MoveToFront(tags, base, assoc - 1, tag);
    FrontOnMiss(s, tags[base..base+assoc], tag);
    return true;
  }

  /** The entries of set `n` in the tag array. */
  function SetOf(t: seq<nat>, n: nat, sets: nat, assoc: nat): (s: seq<nat>)
    requires n < sets && |t| == sets * assoc
    ensures |s| == assoc
  {
    SetBounds(n, sets, assoc);
    t[n*assoc..n*assoc+assoc]
  }

  /** Each set holds the most recently used distinct blocks of its part of the history. */
  ghost predicate Tracks(t: seq<nat>, refs: seq<nat>, sets: nat, assoc: nat)
  {
    0 < sets && 0 < assoc && |t| == sets * assoc &&
    forall n :: 0 <= n < sets ==> SetOf(t, n, sets, assoc) == Resident(InSet(refs, sets, n), assoc)
  }

  lemma {:induction false} ClearedTracksNothing(t: seq<nat>, sets: nat, assoc: nat)
    requires 0 < sets && 0 < assoc && |t| == sets * assoc
    requires forall k :: 0 <= k < |t| ==> t[k] == 0
    ensures Tracks(t, [], sets, assoc)
  {
    forall n | 0 <= n < sets ensures SetOf(t, n, sets, assoc) == Resident([], assoc) {
      SetBounds(n, sets, assoc);
    }
  }

  /** Rewriting one set leaves the entries of every other set alone. */
  lemma {:induction false} OtherSetKept(was: seq<nat>, now: seq<nat>, n: nat, m: nat, sets: nat, assoc: nat)
    requires n < sets && m < sets && m != n && |was| == |now| == sets * assoc
    requires forall k :: 0 <= k < |was| && !(n * assoc <= k < n * assoc + assoc) ==> now[k] == was[k]
    ensures SetOf(now, m, sets, assoc) == SetOf(was, m, sets, assoc)
  {
    SetsDisjoint(m, n, assoc);
    SetBounds(m, sets, assoc);
  }

  /** Touching the set of block `b` extends the history of the whole cache by `b`. */
  lemma {:induction false} TracksStep(was: seq<nat>, now: seq<nat>, refs: seq<nat>, b: nat, sets: nat, assoc: nat)
    requires Tracks(was, refs, sets, assoc) && |now| == |was|
    requires SetOf(now, b % sets, sets, assoc) == Touch(SetOf(was, b % sets, sets, assoc), b)
    requires var n := b % sets;
             forall k :: 0 <= k < |was| && !(n * assoc <= k < n * assoc + assoc) ==> now[k] == was[k]
    ensures Tracks(now, refs + [b], sets, assoc)
  {
    var n := b % sets;
    forall m | 0 <= m < sets
      ensures SetOf(now, m, sets, assoc) == Resident(InSet(refs + [b], sets, m), assoc)
    {
      InSetStep(refs, b, sets, m);
      if m == n {
        TouchFollowsHistory(InSet(refs, sets, m), assoc, b);
      } else {
        OtherSetKept(was, now, n, m, sets, assoc);
      }
    }
  }

  datatype RefResult = Hit | Miss | Panic

  class Cache {
    const assoc: nat
    const sets: nat
    const lineSize: nat
    const tags: array<nat>
    ghost var refs: seq<nat>

    ghost predicate Valid()
      reads this, tags
    {
      lineSize > 0 && Tracks(tags[..], refs, sets, assoc)
    }

    /** A cleared cache. */
    constructor (sets: nat, assoc: nat, lineSize: nat)
      requires sets > 0 && assoc > 0 && lineSize > 0
      ensures Valid() && refs == [] && fresh(tags)
      ensures this.sets == sets && this.assoc == assoc && this.lineSize == lineSize
    {
      this.assoc, this.sets, this.lineSize := assoc, sets, lineSize;
      tags := new nat[sets * assoc](_ => 0);
      refs := [];
      new;
      ClearedTracksNothing(tags[..], sets, assoc);
    }

    /** Look up `tag` in set `n` and make it the most recently used entry. */
    method SetRefIsMiss(n: nat, tag: nat) returns (miss: bool)
      requires assoc > 0 && n < sets && tags.Length == sets * assoc
      modifies tags
      ensures SetOf(tags[..], n, sets, assoc) == Touch(old(SetOf(tags[..], n, sets, assoc)), tag)
      ensures miss <==> tag !in old(SetOf(tags[..], n, sets, assoc))
      ensures forall k :: 0 <= k < tags.Length && !(n * assoc <= k < n * assoc + assoc) ==> tags[k] == old(tags[k])
    {
      hide Touch;
      SetBounds(n, sets, assoc);
      ghost var base := n * assoc;
      assert tags[base..base+assoc] == SetOf(tags[..], n, sets, assoc);
      miss := SegmentRef(tags, n * assoc, assoc, tag);
      assert tags[base..base+assoc] == SetOf(tags[..], n, sets, assoc);
    }

    /** One block of an access: the set is the block number modulo the set count and the
        block number itself is the tag. */
    method BlockRef(b: nat) returns (miss: bool)
      requires Valid()
      modifies this, tags
      ensures Valid() && refs == old(refs) + [b]
      ensures miss <==> BlockMisses(old(refs), b, sets, assoc)
    {
      miss := SetRefIsMiss(b % sets, b);
      TracksStep(old(tags[..]), tags[..], refs, b, sets, assoc);
      refs := refs + [b];
    }

    /** Look up one block or two; each lookup updates the tags. */
    method LookUp(bs: seq<nat>) returns (miss: bool)
      requires Valid() && 1 <= |bs| <= 2
      modifies this, tags
      ensures Valid() && refs == old(refs) + bs && (miss <==> RefMisses(old(refs), bs, sets, assoc))
    {
      var last := bs[|bs|-1];
      RefMissesTwo(refs, bs[0], last, sets, assoc);
      assert bs == if |bs| == 1 then [bs[0]] else [bs[0], last];
      miss := BlockRef(bs[0]);
      if |bs| == 2 {
        var miss2 := BlockRef(last);
        miss := miss || miss2;
      }
    }

    /** An access of `size` bytes at `a`. */
    method RefIsMiss(a: nat, size: nat) returns (r: RefResult)
      requires Valid()
      modifies this, tags
      ensures Valid()
      ensures r.Panic? <==> Blocks(a, size, lineSize) == []
      ensures refs == old(refs) + Blocks(a, size, lineSize)
      ensures r.Miss? <==> RefMisses(old(refs), Blocks(a, size, lineSize), sets, assoc)
      ensures 1 <= size && a + size <= WORD ==>
                (r.Panic? <==> ReachesThird(a, size, lineSize)) &&
                (!r.Panic? ==> AreLines(refs[|old(refs)|..], a, size, lineSize))
    {
      hide ReachesThird, AreLines, Blocks;
      var bs := Blocks(a, size, lineSize);
      if 1 <= size && a + size <= WORD { BlocksAreLines(a, size, lineSize); }
      if bs == [] {
        return Panic;
      }
      var miss := LookUp(bs);
      assert refs[|old(refs)|..] == bs;
      r := if miss then Miss else Hit;
    }
  }
}
