/** Callgrind's cache simulation with use collection, for one set.  An entry of the tag array
    holds a tag, a multiple of `span`, and in its low bits the number of the use record of its
    line.  Records stay in place while entries move. */
module CacheUse {
  import opened Arith
  import opened Bits
  import opened LruStack
  import opened UseMask
  import CacheSim
  import WriteBack

  datatype Use = Use(count: nat, mask: nat)

  datatype Ref = Ref(tag: nat, mask: nat)

  datatype State = State(entries: seq<nat>, use: seq<Use>)

  function Tag(e: nat, span: nat): (t: nat)
    requires span > 0
  {
    e - e % span
  }

  function Pointer(e: nat, span: nat): (p: nat)
    requires span > 0
    ensures p < span
  {
    e % span
  }

  function TagsOf(s: seq<nat>, span: nat): (t: seq<nat>)
    requires span > 0
    ensures |t| == |s| && forall k :: 0 <= k < |s| ==> t[k] == Tag(s[k], span)
  {
    seq(|s|, k requires 0 <= k < |s| => Tag(s[k], span))
  }

  function Pointers(s: seq<nat>, span: nat): (p: seq<nat>)
    requires span > 0
    ensures |p| == |s| && forall k :: 0 <= k < |s| ==> p[k] == Pointer(s[k], span)
  {
    seq(|s|, k requires 0 <= k < |s| => Pointer(s[k], span))
  }

  predicate AllBelow(p: seq<nat>, n: nat)
  {
    forall k :: 0 <= k < |p| ==> p[k] < n
  }

  /** Every entry has its own record. */
  predicate Valid(s: State, span: nat)
  {
    span > 0 && |s.entries| == |s.use| > 0 &&
    Distinct(Pointers(s.entries, span)) && AllBelow(Pointers(s.entries, span), |s.use|)
  }

  /** A reference on a hit at position `i`, and on a miss. */
  function OnHit(s: State, r: Ref, i: nat, span: nat): (t: State)
    requires Valid(s, span) && i < |s.entries|
    ensures |t.entries| == |t.use| == |s.use|
  {
    var e := s.entries;
    var p := Pointers(e, span)[i];
    State([e[i]] + e[..i] + e[i+1..], s.use[p := Use(s.use[p].count + 1, Or(s.use[p].mask, r.mask))])
  }

  function OnMiss(s: State, r: Ref, span: nat): (t: State)
    requires Valid(s, span)
    ensures |t.entries| == |t.use| == |s.use|
  {
    var e, n := s.entries, |s.entries|;
    var p := Pointers(e, span)[n-1];
    State([r.tag + p] + e[..n-1], s.use[p := Use(1, r.mask)])
  }

  function Access(s: State, r: Ref, span: nat): (t: State)
    requires Valid(s, span)
    ensures |t.entries| == |t.use| == |s.use|
  {
    var tags := TagsOf(s.entries, span);
    if r.tag in tags then OnHit(s, r, IndexOf(tags, r.tag), span) else OnMiss(s, r, span)
  }

  // ------------------------------------------------------------------ records are never shared

  lemma {:induction false} PointersConcat(x: seq<nat>, y: seq<nat>, span: nat)
    requires span > 0
    ensures Pointers(x + y, span) == Pointers(x, span) + Pointers(y, span)
    ensures TagsOf(x + y, span) == TagsOf(x, span) + TagsOf(y, span)
  {
  }

  lemma {:induction false} PointersSlice(s: seq<nat>, lo: nat, hi: nat, span: nat)
    requires span > 0 && lo <= hi <= |s|
    ensures Pointers(s[lo..hi], span) == Pointers(s, span)[lo..hi]
    ensures TagsOf(s[lo..hi], span) == TagsOf(s, span)[lo..hi]
  {
  }

  /** The pointers (and tags) of a set with entry `x` in front of the others but `i`. */
  lemma {:induction false} PointersCut(s: seq<nat>, x: nat, i: nat, span: nat)
    requires span > 0 && i < |s|
    ensures Pointers([x] + s[..i] + s[i+1..], span)
            == [Pointer(x, span)] + Pointers(s, span)[..i] + Pointers(s, span)[i+1..]
    ensures TagsOf([x] + s[..i] + s[i+1..], span)
            == [Tag(x, span)] + TagsOf(s, span)[..i] + TagsOf(s, span)[i+1..]
  {
    PointersConcat([x] + s[..i], s[i+1..], span);
    PointersConcat([x], s[..i], span);
    PointersSlice(s, 0, i, span);
    PointersSlice(s, i + 1, |s|, span);
    assert Pointers([x], span) == [Pointer(x, span)] && TagsOf([x], span) == [Tag(x, span)];
  }

  lemma {:induction false} RotatedDistinct(p: seq<nat>, i: nat, n: nat)
    requires i < |p| && Distinct(p) && AllBelow(p, n)
    ensures Distinct([p[i]] + p[..i] + p[i+1..]) && AllBelow([p[i]] + p[..i] + p[i+1..], n)
  {
  }

  lemma {:induction false} TagAndPointer(t: nat, p: nat, span: nat)
    requires span > 0 && t % span == 0 && p < span
    ensures Tag(t + p, span) == t && Pointer(t + p, span) == p
  {
    var q := t / span;
    assert t + p == q * span + p;
    DivModIs(t + p, span, q, p);
  }

  /** The entry put in front on a miss takes over the pointer of the evicted one. */
  lemma {:induction false} MissCuts(s: State, r: Ref, span: nat)
    requires Valid(s, span) && r.tag % span == 0
    ensures var e, n := s.entries, |s.entries|;
            OnMiss(s, r, span).entries == [r.tag + Pointers(e, span)[n-1]] + e[..n-1] + e[n..]
  {
  }

  /** References keep the pointers a permutation, whatever they are. */
  lemma {:induction false} ValidKept(s: State, r: Ref, span: nat)
    requires Valid(s, span) && r.tag % span == 0
    ensures Valid(Access(s, r, span), span)
  {
    hide AllBelow, Distinct;
    var e, p, tags := s.entries, Pointers(s.entries, span), TagsOf(s.entries, span);
    if r.tag in tags {
      var i := IndexOf(tags, r.tag);
      PointersCut(e, e[i], i, span);
      RotatedDistinct(p, i, |s.use|);
    } else {
      var n := |e| - 1;
      MissCuts(s, r, span);
      TagAndPointer(r.tag, p[n], span);
      PointersCut(e, r.tag + p[n], n, span);
      RotatedDistinct(p, n, |s.use|);
    }
  }

  // ------------------------------------------------------------------ one bit of the masks

  /** The set with, for each line, bit `b` of its record next to its tag. */
  function View(s: State, b: nat, span: nat): (v: seq<nat>)
    requires Valid(s, span)
    ensures |v| == |s.entries|
    ensures forall k :: 0 <= k < |v| ==> v[k] == Seen(s, b, span, k)
  {
    seq(|s.entries|, k requires 0 <= k < |s.entries| => Seen(s, b, span, k))
  }

  function Seen(s: State, b: nat, span: nat, k: nat): (x: nat)
    requires Valid(s, span) && k < |s.entries|
  {
    var p := Pointers(s.entries, span)[k];
    Tag(s.entries[k], span) + Digit(Bit(s.use[p].mask, b))
  }

  lemma {:induction false} TagEven(e: nat, span: nat)
    requires span > 0 && span % 2 == 0
    ensures Tag(e, span) % 2 == 0
  {
    var q, h := e / span, span / 2;
    assert span == 2 * h;
    assert Tag(e, span) == q * span;
    EvenTimes(q, h, span);
  }

  lemma {:induction false} EvenTimes(q: int, h: int, span: int)
    requires span == 2 * h
    ensures (q * span) % 2 == 0
  {
    assert q * span == 2 * (q * h);
  }

  lemma {:induction false} ViewTags(s: State, b: nat, span: nat)
    requires Valid(s, span) && span % 2 == 0
    ensures WriteBack.CleanAll(View(s, b, span)) == TagsOf(s.entries, span)
  {
    forall k | 0 <= k < |s.entries|
      ensures WriteBack.Clean(Seen(s, b, span, k)) == Tag(s.entries[k], span)
    {
      TagEven(s.entries[k], span);
    }
  }

  /** As a reference of the write-back simulation, "writing" when it touches part `b`. */
  function Touches(r: Ref, b: nat): (w: WriteBack.Ref)
  {
    WriteBack.Ref(r.tag, Bit(r.mask, b))
  }

  /** Entry `k > 0` after `x` came in front of the others but `i` was entry `Was(k, i)`. */
  function Was(k: nat, i: nat): (j: nat)
    requires k > 0
  {
    if k <= i then k - 1 else k
  }

  lemma {:induction false} CutAt(s: seq<nat>, x: nat, i: nat, k: nat)
    requires i < |s| && 0 < k < |s|
    ensures ([x] + s[..i] + s[i+1..])[k] == s[Was(k, i)] && Was(k, i) != i
  {
  }

  /** A line whose record was not written shows the same as before. */
  lemma {:induction false} OthersSeen(s: State, t: State, b: nat, span: nat, i: nat, x: nat, u: Use, k: nat)
    requires Valid(s, span) && Valid(t, span) && i < |s.entries| && 0 < k < |s.entries|
    requires t.entries == [x] + s.entries[..i] + s.entries[i+1..]
    requires t.use == s.use[Pointers(s.entries, span)[i] := u]
    ensures Seen(t, b, span, k) == Seen(s, b, span, Was(k, i))
  {
    CutAt(s.entries, x, i, k);
    assert Pointers(s.entries, span)[i] != Pointers(s.entries, span)[Was(k, i)];
  }

  lemma {:induction false} ViewCut(s: State, t: State, b: nat, span: nat, i: nat, x: nat, u: Use)
    requires Valid(s, span) && Valid(t, span) && i < |s.entries|
    requires t.entries == [x] + s.entries[..i] + s.entries[i+1..]
    requires t.use == s.use[Pointers(s.entries, span)[i] := u]
    ensures var v := View(s, b, span); View(t, b, span) == [Seen(t, b, span, 0)] + v[..i] + v[i+1..]
  {
    var v, w := View(s, b, span), View(t, b, span);
    var y := Seen(t, b, span, 0);
    forall k | 0 < k < |w| ensures w[k] == ([y] + v[..i] + v[i+1..])[k] {
      OthersSeen(s, t, b, span, i, x, u, k);
      CutAt(v, y, i, k);
    }
  }

  lemma {:induction false} SeenOnHit(s: State, r: Ref, b: nat, span: nat, i: nat)
    requires Valid(s, span) && span % 2 == 0 && i < |s.entries| && Valid(OnHit(s, r, i, span), span)
    ensures Seen(OnHit(s, r, i, span), b, span, 0) == WriteBack.Marked(Seen(s, b, span, i), Bit(r.mask, b))
  {
    var e, t := s.entries, OnHit(s, r, i, span);
    var p := Pointers(e, span)[i];
    assert t.entries[0] == e[i] && Pointers(t.entries, span)[0] == p;
    BitOr(s.use[p].mask, r.mask, b);
    TagEven(e[i], span);
    MarkedDigit(Tag(e[i], span), Bit(s.use[p].mask, b), Bit(r.mask, b));
  }

  lemma {:induction false} MarkedDigit(t: nat, was: bool, now: bool)
    requires t % 2 == 0
    ensures WriteBack.Marked(t + Digit(was), now) == t + Digit(was || now)
  {
  }

  lemma {:induction false} ViewOnHit(s: State, r: Ref, b: nat, span: nat, i: nat)
    requires Valid(s, span) && span % 2 == 0 && i < |s.entries| && Valid(OnHit(s, r, i, span), span)
    ensures var v := View(s, b, span);
            View(OnHit(s, r, i, span), b, span)
            == [WriteBack.Marked(v[i], Bit(r.mask, b))] + v[..i] + v[i+1..]
  {
    var t := OnHit(s, r, i, span);
    ViewCut(s, t, b, span, i, s.entries[i], t.use[Pointers(s.entries, span)[i]]);
    SeenOnHit(s, r, b, span, i);
  }

  lemma {:induction false} ViewOnMiss(s: State, r: Ref, b: nat, span: nat)
    requires Valid(s, span) && span % 2 == 0 && r.tag % span == 0 && Valid(OnMiss(s, r, span), span)
    ensures var v := View(s, b, span);
            View(OnMiss(s, r, span), b, span) == [WriteBack.Marked(r.tag, Bit(r.mask, b))] + v[..|v|-1]
  {
    var e, t, n := s.entries, OnMiss(s, r, span), |s.entries| - 1;
    var p, v := Pointers(e, span)[n], View(s, b, span);
    MissCuts(s, r, span);
    ViewCut(s, t, b, span, n, r.tag + p, t.use[p]);
    TagAndPointer(r.tag, p, span);
    TagEven(r.tag, span);
    assert Tag(r.tag, span) == r.tag;
    assert v[n+1..] == [];
    assert Seen(t, b, span, 0) == r.tag + Digit(Bit(r.mask, b));
  }

  lemma {:induction false} WriteBackHit(v: seq<nat>, tags: seq<nat>, r: WriteBack.Ref)
    requires |v| > 0 && WriteBack.CleanAll(v) == tags && r.tag in tags
    ensures var i := IndexOf(tags, r.tag);
            WriteBack.Access(v, r) == [WriteBack.Marked(v[i], r.write)] + v[..i] + v[i+1..]
  {
  }

  lemma {:induction false} WriteBackMiss(v: seq<nat>, tags: seq<nat>, r: WriteBack.Ref)
    requires |v| > 0 && WriteBack.CleanAll(v) == tags && r.tag !in tags
    ensures WriteBack.Access(v, r) == [WriteBack.Marked(r.tag, r.write)] + v[..|v|-1]
  {
  }

  /** On every bit, the set follows the write-back simulation step for step. */
  lemma {:induction false} BitSimulates(s: State, r: Ref, b: nat, span: nat)
    requires Valid(s, span) && span % 2 == 0 && r.tag % span == 0
    ensures Valid(Access(s, r, span), span)
    ensures View(Access(s, r, span), b, span) == WriteBack.Access(View(s, b, span), Touches(r, b))
  {
    assert span > 0 && |s.entries| > 0;
    hide Valid, TagsOf, IndexOf, View, OnHit, OnMiss, WriteBack.Access, WriteBack.CleanAll, WriteBack.Marked, Bit;
    ValidKept(s, r, span);
    ViewTags(s, b, span);
    var v, tags := View(s, b, span), TagsOf(s.entries, span);
    if r.tag in tags {
      WriteBackHit(v, tags, Touches(r, b));
      ViewOnHit(s, r, b, span, IndexOf(tags, r.tag));
    } else {
      WriteBackMiss(v, tags, Touches(r, b));
      ViewOnMiss(s, r, b, span);
    }
  }

  // ------------------------------------------------------------------ over every trace

  predicate Aligned(h: seq<Ref>, span: nat)
  {
    span > 0 && forall r :: r in h ==> r.tag % span == 0
  }

  function Cleared(assoc: nat): (s: State)
    ensures |s.entries| == |s.use| == assoc
    ensures forall k :: 0 <= k < assoc ==> s.entries[k] == k && s.use[k] == Use(0, 0)
  {
    State(seq(assoc, k => k), seq(assoc, _ => Use(0, 0)))
  }

  lemma {:induction false} SmallEntry(k: nat, span: nat)
    requires k < span
    ensures Tag(k, span) == 0 && Pointer(k, span) == k
  {
  }

  lemma {:induction false} ClearedValid(assoc: nat, span: nat)
    requires 0 < assoc <= span
    ensures Valid(Cleared(assoc), span)
  {
    var p := Pointers(Cleared(assoc).entries, span);
    forall k | 0 <= k < assoc ensures p[k] == k { SmallEntry(k, span); }
  }

  lemma {:induction false} ClearedView(assoc: nat, span: nat, b: nat)
    requires 0 < assoc <= span && Valid(Cleared(assoc), span)
    ensures View(Cleared(assoc), b, span) == Zeros(assoc)
  {
    NoBit(b);
    forall k | 0 <= k < assoc ensures Seen(Cleared(assoc), b, span, k) == 0 { SmallEntry(k, span); }
  }

  /** The set after a history of references. */
  function After(h: seq<Ref>, assoc: nat, span: nat): (s: State)
    requires 0 < assoc <= span && Aligned(h, span)
    ensures |s.entries| == |s.use| == assoc && Valid(s, span)
  {
    if h == [] then ClearedValid(assoc, span); Cleared(assoc)
    else
      var before := After(h[..|h|-1], assoc, span);
      ValidKept(before, h[|h|-1], span);
      Access(before, h[|h|-1], span)
  }

  /** 0, ..., n - 1. */
  function Below(n: nat): (s: set<nat>)
    ensures |s| == n && forall k: nat :: k in s <==> k < n
  {
    if n == 0 then {} else Below(n - 1) + {n - 1}
  }

  /** The pointers of a set are always a permutation of 0, ..., assoc - 1. */
  lemma {:induction false} PointersPermute(h: seq<Ref>, assoc: nat, span: nat)
    requires 0 < assoc <= span && Aligned(h, span)
    ensures var p := Pointers(After(h, assoc, span).entries, span);
            |p| == assoc && Distinct(p) && Elems(p) == Below(assoc)
  {
    var p := Pointers(After(h, assoc, span).entries, span);
    DistinctCard(p);
    SubsetOfSameSize(Elems(p), Below(assoc));
  }

  lemma {:induction false} SubsetOfSameSize(x: set<nat>, y: set<nat>)
    requires x <= y && |x| == |y|
    ensures x == y
  {
    assert y == x + (y - x);
    assert |y| == |x| + |y - x|;
  }

  function TouchRefs(h: seq<Ref>, b: nat): (w: seq<WriteBack.Ref>)
    ensures |w| == |h| && forall k :: 0 <= k < |h| ==> w[k] == Touches(h[k], b)
  {
    seq(|h|, k requires 0 <= k < |h| => Touches(h[k], b))
  }

  lemma {:induction false} AlignedEven(t: nat, span: nat)
    requires span > 0 && span % 2 == 0 && t % span == 0
    ensures t % 2 == 0
  {
    TagEven(t, span);
  }

  lemma {:induction false} PlainTouches(h: seq<Ref>, span: nat, b: nat)
    requires Aligned(h, span) && span % 2 == 0
    ensures WriteBack.Plain(TouchRefs(h, b))
  {
    forall w | w in TouchRefs(h, b) ensures w.tag % 2 == 0 {
      var k :| 0 <= k < |h| && w == TouchRefs(h, b)[k];
      AlignedEven(h[k].tag, span);
    }
  }

  lemma {:induction false} BitOverRuns(h: seq<Ref>, assoc: nat, span: nat, b: nat)
    requires 0 < assoc <= span && span % 2 == 0 && Aligned(h, span)
    ensures View(After(h, assoc, span), b, span) == WriteBack.State(TouchRefs(h, b), assoc)
  {
    if h == [] {
      ClearedValid(assoc, span);
      ClearedView(assoc, span, b);
    } else {
      var before, r := h[..|h|-1], h[|h|-1];
      BitOverRuns(before, assoc, span, b);
      BitSimulates(After(before, assoc, span), r, b, span);
      var w := TouchRefs(h, b);
      assert w[..|w|-1] == TouchRefs(before, b) && w[|w|-1] == Touches(r, b);
    }
  }

  function Tags(h: seq<Ref>): (t: seq<nat>)
    ensures |t| == |h| && forall k :: 0 <= k < |h| ==> t[k] == h[k].tag
  {
    seq(|h|, k requires 0 <= k < |h| => h[k].tag)
  }

  /** Some reference to the line of tag `t` touched part `b`, and the line has been held since. */
  ghost predicate TouchedSinceLoad(h: seq<Ref>, t: nat, b: nat, assoc: nat)
  {
    exists i :: 0 <= i < |h| && h[i].tag == t && Bit(h[i].mask, b) && HeldSince(Tags(h), i, t, assoc)
  }

  lemma {:induction false} TouchedIsWritten(h: seq<Ref>, t: nat, b: nat, assoc: nat)
    ensures TouchedSinceLoad(h, t, b, assoc) <==> WriteBack.WrittenSinceLoad(TouchRefs(h, b), t, assoc)
  {
    var w := TouchRefs(h, b);
    assert WriteBack.Tags(w) == Tags(h);
    assert forall i :: 0 <= i < |h| ==>
        (w[i] == WriteBack.Ref(t, true) <==> h[i].tag == t && Bit(h[i].mask, b));
  }

  /** After every trace the lines held are the most recently used ones, and a bit of a line's
      use mask is set if and only if that part of the line was touched since it was loaded. */
  lemma {:induction false} MaskIffTouched(h: seq<Ref>, assoc: nat, span: nat, b: nat, k: nat)
    requires 0 < assoc <= span && span % 2 == 0 && Aligned(h, span) && k < assoc
    ensures var s := After(h, assoc, span);
            var tags := TagsOf(s.entries, span);
            tags == Resident(Tags(h), assoc) &&
            (Bit(s.use[Pointers(s.entries, span)[k]].mask, b) <==>
               tags[k] !in tags[..k] && TouchedSinceLoad(h, tags[k], b, assoc))
  {
    var s, w := After(h, assoc, span), TouchRefs(h, b);
    var v, tags := View(s, b, span), TagsOf(s.entries, span);
    PlainTouches(h, span, b);
    BitOverRuns(h, assoc, span, b);
    ViewTags(s, b, span);
    WriteBack.ErasureOverRuns(w, assoc);
    assert WriteBack.Tags(w) == Tags(h);
    WriteBack.DirtyIffWritten(w, assoc);
    TouchedIsWritten(h, tags[k], b, assoc);
    TagEven(s.entries[k], span);
    assert v[k] == Seen(s, b, span, k);
  }

  // ------------------------------------------------------------------ bytes touched

  /** A reference to one line made for an access: for all of it, for one that goes on in the
      next line, or for what came from the line before. */
  datatype Piece = Whole(tag: nat, first: nat, last: nat) | Head(tag: nat, first: nat) | Tail(tag: nat, last: nat)
  {
    /** Its bytes are numbers of bytes of a line, and in order. */
    predicate InRange(lineSize: nat)
    {
      match this
      case Whole(_, i, j) => i < lineSize && j < lineSize
      case Head(_, i) => i < lineSize
      case Tail(_, j) => j < lineSize
    }

    predicate Fits(lineSize: nat)
    {
      InRange(lineSize) && (Whole? ==> first <= last)
    }

    /** Does it touch byte `x` of the line? */
    predicate Covers(x: nat, lineSize: nat)
    {
      match this
      case Whole(_, i, j) => i <= x <= j
      case Head(_, i) => i <= x < lineSize
      case Tail(_, j) => x <= j
    }
  }

  /** The mask the simulator takes from its tables. */
  function MaskOf(p: Piece, start: seq<nat>, end: seq<nat>, lineSize: nat): (m: nat)
    requires |start| == |end| == lineSize && p.InRange(lineSize)
  {
    match p
    case Whole(_, i, j) => And(start[i], end[j])
    case Head(_, i) => start[i]
    case Tail(_, j) => end[j]
  }

  lemma {:induction false} HeadMask(s: nat, i: nat, lineSize: nat, b: nat)
    requires i < lineSize && b < 32 && StartMask(s, i, lineSize)
    ensures Bit(s, b) <==> exists x :: i <= x < lineSize && InPart(x, b, lineSize)
  {
    if Bit(s, b) {
      var x := b * lineSize / 32;
      if x < i {
        assert InPart(i, b, lineSize);
      } else {
        assert InPart(x, b, lineSize);
      }
    }
  }

  lemma {:induction false} TailMask(e: nat, j: nat, lineSize: nat, b: nat)
    requires j < lineSize && b < 32 && EndMask(e, j, lineSize)
    ensures Bit(e, b) <==> exists x :: 0 <= x <= j && InPart(x, b, lineSize)
  {
    if Bit(e, b) {
      var x := b * lineSize / 32;
      assert InPart(x, b, lineSize);
    }
  }

  /** Some byte of part `b` is touched. */
  ghost predicate TouchesPart(p: Piece, b: nat, lineSize: nat)
  {
    exists x: nat :: p.Covers(x, lineSize) && InPart(x, b, lineSize)
  }

  lemma {:induction false} MaskOfPiece(p: Piece, start: seq<nat>, end: seq<nat>, lineSize: nat, b: nat)
    requires Tables(start, end, lineSize) && p.Fits(lineSize) && b < 32
    ensures Bit(MaskOf(p, start, end, lineSize), b) <==> TouchesPart(p, b, lineSize)
  {
    match p
    case Whole(_, i, j) =>
      MaskOfAccess(start[i], end[j], i, j, lineSize, b);
      if Bit(And(start[i], end[j]), b) {
        var x :| i <= x <= j && InPart(x, b, lineSize);
        assert p.Covers(x, lineSize);
      }
    case Head(_, i) =>
      HeadMask(start[i], i, lineSize, b);
      if Bit(start[i], b) {
        var x :| i <= x < lineSize && InPart(x, b, lineSize);
        assert p.Covers(x, lineSize);
      }
    case Tail(_, j) =>
      TailMask(end[j], j, lineSize, b);
      if Bit(end[j], b) {
        var x :| 0 <= x <= j && InPart(x, b, lineSize);
        assert p.Covers(x, lineSize);
      }
  }

  predicate AllInRange(h: seq<Piece>, span: nat, lineSize: nat)
  {
    span > 0 && forall k :: 0 <= k < |h| ==> h[k].InRange(lineSize) && h[k].tag % span == 0
  }

  predicate AllFit(h: seq<Piece>, span: nat, lineSize: nat)
  {
    span > 0 && forall k :: 0 <= k < |h| ==> h[k].Fits(lineSize) && h[k].tag % span == 0
  }

  /** The references made for a history of pieces. */
  function Refs(h: seq<Piece>, start: seq<nat>, end: seq<nat>, span: nat, lineSize: nat): (r: seq<Ref>)
    requires |start| == |end| == lineSize && AllInRange(h, span, lineSize)
    ensures |r| == |h| && Aligned(r, span)
    ensures forall k :: 0 <= k < |h| ==> r[k] == Ref(h[k].tag, MaskOf(h[k], start, end, lineSize))
  {
    seq(|h|, k requires 0 <= k < |h| => Ref(h[k].tag, MaskOf(h[k], start, end, lineSize)))
  }

  function PieceTags(h: seq<Piece>): (t: seq<nat>)
    ensures |t| == |h| && forall k :: 0 <= k < |h| ==> t[k] == h[k].tag
  {
    seq(|h|, k requires 0 <= k < |h| => h[k].tag)
  }

  /** Some access to the line of tag `t` touched a byte of part `b`, and the line has been held
      since. */
  ghost predicate PartUsedSinceLoad(h: seq<Piece>, t: nat, b: nat, lineSize: nat, assoc: nat)
  {
    exists i :: 0 <= i < |h| && h[i].tag == t && TouchesPart(h[i], b, lineSize) &&
                HeldSince(PieceTags(h), i, t, assoc)
  }

  lemma {:induction false} UsedIsTouched(h: seq<Piece>, start: seq<nat>, end: seq<nat>, span: nat, lineSize: nat,
                                         t: nat, b: nat, assoc: nat)
    requires Tables(start, end, lineSize) && AllFit(h, span, lineSize) && b < 32
    ensures TouchedSinceLoad(Refs(h, start, end, span, lineSize), t, b, assoc) <==>
            PartUsedSinceLoad(h, t, b, lineSize, assoc)
  {
    var r := Refs(h, start, end, span, lineSize);
    assert Tags(r) == PieceTags(h);
    forall i | 0 <= i < |h| ensures Bit(r[i].mask, b) <==> TouchesPart(h[i], b, lineSize) {
      MaskOfPiece(h[i], start, end, lineSize, b);
    }
  }

  /** After every history of pieces that fit, with masks taken from the tables: the lines held
      are the most recently used ones, and each bit of a line's use mask is set if and only if
      a byte of that part was touched since the line was loaded. */
  lemma {:induction false} MaskIffBytesTouched(h: seq<Piece>, start: seq<nat>, end: seq<nat>, lineSize: nat,
                                               assoc: nat, span: nat, b: nat, k: nat)
    requires 0 < assoc <= span && span % 2 == 0 && AllFit(h, span, lineSize) && Tables(start, end, lineSize)
    requires b < 32 && k < assoc
    ensures var s := After(Refs(h, start, end, span, lineSize), assoc, span);
            var tags := TagsOf(s.entries, span);
            tags == Resident(PieceTags(h), assoc) &&
            (Bit(s.use[Pointers(s.entries, span)[k]].mask, b) <==>
               tags[k] !in tags[..k] && PartUsedSinceLoad(h, tags[k], b, lineSize, assoc))
  {
    var r := Refs(h, start, end, span, lineSize);
    MaskIffTouched(r, assoc, span, b, k);
    assert Tags(r) == PieceTags(h);
    UsedIsTouched(h, start, end, span, lineSize, TagsOf(After(r, assoc, span).entries, span)[k], b, assoc);
  }

  // ------------------------------------------------------------------ whose record it is

  /** None of the first `n` entries has tag `t`. */
  predicate Absent(e: seq<nat>, t: nat, n: nat, span: nat)
    requires n <= |e| && span > 0
  {
    forall k :: 0 <= k < n ==> Tag(e[k], span) != t
  }

  /** The entry `e` is the one in which a lookup finds tag `t`. */
  ghost predicate Owns(s: State, t: nat, e: nat, span: nat)
    requires Valid(s, span)
  {
    var tags := TagsOf(s.entries, span);
    t in tags && s.entries[IndexOf(tags, t)] == e
  }

  lemma {:induction false} OwnsAt(s: State, t: nat, i: nat, span: nat)
    requires Valid(s, span) && i < |s.entries| && Tag(s.entries[i], span) == t && Absent(s.entries, t, i, span)
    ensures Owns(s, t, s.entries[i], span)
  {
    IndexUnique(TagsOf(s.entries, span), t, i);
  }

  /** Entry `i` coming in front, changed to `x`, leaves the entry of another tag where a lookup
      finds it. */
  lemma {:induction false} OwnsMoved(s: State, u: State, t: nat, k: nat, i: nat, x: nat, span: nat)
    requires Valid(s, span) && Valid(u, span) && i < |s.entries| && k < |s.entries| && k != i
    requires Tag(s.entries[k], span) == t && Absent(s.entries, t, k, span) && Tag(x, span) != t
    requires u.entries == [x] + s.entries[..i] + s.entries[i+1..]
    ensures Owns(u, t, s.entries[k], span)
  {
    var m := if k < i then k + 1 else k;
    assert u.entries[m] == s.entries[k];
    forall q | 0 <= q < m ensures Tag(u.entries[q], span) != t {
      if q > 0 { CutAt(s.entries, x, i, q); }
    }
    OwnsAt(u, t, m, span);
  }

  lemma {:induction false} OwnsHit(s: State, r: Ref, t: nat, k: nat, span: nat)
    requires Valid(s, span) && r.tag % span == 0 && r.tag in TagsOf(s.entries, span)
    requires k < |s.entries| && Tag(s.entries[k], span) == t && Absent(s.entries, t, k, span)
    requires Valid(Access(s, r, span), span)
    ensures Owns(Access(s, r, span), t, s.entries[k], span)
  {
    var i := IndexOf(TagsOf(s.entries, span), r.tag);
    var u := Access(s, r, span);
    IndexUnique(TagsOf(s.entries, span), t, k);
    if i == k {
      OwnsAt(u, t, 0, span);
    } else {
      OwnsMoved(s, u, t, k, i, s.entries[i], span);
    }
  }

  lemma {:induction false} OwnsMiss(s: State, r: Ref, t: nat, k: nat, span: nat)
    requires Valid(s, span) && r.tag % span == 0 && r.tag !in TagsOf(s.entries, span)
    requires k < |s.entries| && Tag(s.entries[k], span) == t && Absent(s.entries, t, k, span)
    requires Valid(Access(s, r, span), span) && t in TagsOf(Access(s, r, span).entries, span)
    ensures Owns(Access(s, r, span), t, s.entries[k], span)
  {
    var u, n := Access(s, r, span), |s.entries| - 1;
    var p := Pointers(s.entries, span)[n];
    MissCuts(s, r, span);
    TagAndPointer(r.tag, p, span);
    assert TagsOf(s.entries, span)[k] == t != r.tag;
    assert k != n;
    OwnsMoved(s, u, t, k, n, r.tag + p, span);
  }

  /** As long as a line is held its entry, and with it its record, stays the same. */
  lemma {:induction false} OwnsKept(s: State, r: Ref, t: nat, e: nat, span: nat)
    requires Valid(s, span) && r.tag % span == 0 && Owns(s, t, e, span) && Valid(Access(s, r, span), span)
    requires t in TagsOf(Access(s, r, span).entries, span)
    ensures Owns(Access(s, r, span), t, e, span)
  {
    var tags := TagsOf(s.entries, span);
    var k := IndexOf(tags, t);
    assert Absent(s.entries, t, k, span);
    if r.tag in tags { OwnsHit(s, r, t, k, span); } else { OwnsMiss(s, r, t, k, span); }
  }

  /** A line just referenced is in front. */
  lemma {:induction false} FrontOwns(s: State, r: Ref, span: nat)
    requires Valid(s, span) && r.tag % span == 0 && Valid(Access(s, r, span), span)
    ensures var u := Access(s, r, span); |u.entries| > 0 && Owns(u, r.tag, u.entries[0], span)
  {
    var u := Access(s, r, span);
    if r.tag !in TagsOf(s.entries, span) {
      TagAndPointer(r.tag, Pointers(s.entries, span)[|s.entries|-1], span);
    }
    OwnsAt(u, r.tag, 0, span);
  }

  /** An evicted line's record goes to the line that takes its place. */
  lemma {:induction false} EvictionReuses(s: State, r: Ref, span: nat)
    requires Valid(s, span) && r.tag % span == 0 && r.tag !in TagsOf(s.entries, span)
    ensures Pointers(Access(s, r, span).entries, span)[0] == Pointers(s.entries, span)[|s.entries|-1]
  {
    TagAndPointer(r.tag, Pointers(s.entries, span)[|s.entries|-1], span);
  }

  lemma {:induction false} AlignedPrefix(h: seq<Ref>, span: nat, j: nat)
    requires Aligned(h, span) && j <= |h|
    ensures Aligned(h[..j], span)
  {
  }

  /** The set after the first `j` references. */
  function At(h: seq<Ref>, j: nat, assoc: nat, span: nat): (s: State)
    requires 0 < assoc <= span && Aligned(h, span) && j <= |h|
    ensures Valid(s, span) && |s.entries| == assoc
  {
    AlignedPrefix(h, span, j);
    After(h[..j], assoc, span)
  }

  lemma {:induction false} AtStep(h: seq<Ref>, j: nat, assoc: nat, span: nat)
    requires 0 < assoc <= span && Aligned(h, span) && j < |h|
    ensures h[j].tag % span == 0
    ensures At(h, j + 1, assoc, span) == Access(At(h, j, assoc, span), h[j], span)
  {
    AlignedPrefix(h, span, j + 1);
    assert h[..j+1][..j] == h[..j] && h[..j+1][j] == h[j];
    assert h[j] in h;
  }

  lemma {:induction false} AtTags(h: seq<Ref>, j: nat, assoc: nat, span: nat)
    requires 0 < assoc <= span && span % 2 == 0 && Aligned(h, span) && j <= |h|
    ensures TagsOf(At(h, j, assoc, span).entries, span) == Resident(Tags(h)[..j], assoc)
  {
    AlignedPrefix(h, span, j);
    MaskIffTouched(h[..j], assoc, span, 0, 0);
    assert Tags(h[..j]) == Tags(h)[..j];
  }

  /** The line of tag `t` has kept the entry `e` from just after reference `i` until now. */
  ghost predicate KeepsEntry(h: seq<Ref>, i: nat, t: nat, e: nat, assoc: nat, span: nat)
    requires 0 < assoc <= span && Aligned(h, span)
  {
    forall j :: i < j <= |h| ==> Owns(At(h, j, assoc, span), t, e, span)
  }

  lemma {:induction false} KeptTo(h: seq<Ref>, i: nat, j: nat, assoc: nat, span: nat)
    requires 0 < assoc <= span && span % 2 == 0 && Aligned(h, span) && i < j <= |h|
    requires HeldSince(Tags(h), i, h[i].tag, assoc)
    ensures Owns(At(h, j, assoc, span), h[i].tag, At(h, i + 1, assoc, span).entries[0], span)
    decreases j
  {
    AtStep(h, j - 1, assoc, span);
    if j == i + 1 {
      FrontOwns(At(h, i, assoc, span), h[i], span);
    } else {
      KeptTo(h, i, j - 1, assoc, span);
      AtTags(h, j, assoc, span);
      OwnsKept(At(h, j - 1, assoc, span), h[j-1], h[i].tag, At(h, i + 1, assoc, span).entries[0], span);
    }
  }

  /** A pointer taken to the use record of a line when it was referenced, as first-level lines
      keep one to their last-level line's, still is that line's own if and only if the line
      was held ever since; else the record went to another line in between. */
  lemma {:induction false} RecordOwnIffHeld(h: seq<Ref>, i: nat, assoc: nat, span: nat)
    requires 0 < assoc <= span && span % 2 == 0 && Aligned(h, span) && i < |h|
    ensures KeepsEntry(h, i, h[i].tag, At(h, i + 1, assoc, span).entries[0], assoc, span) <==>
            HeldSince(Tags(h), i, h[i].tag, assoc)
  {
    var t, e := h[i].tag, At(h, i + 1, assoc, span).entries[0];
    if HeldSince(Tags(h), i, t, assoc) {
      forall j | i < j <= |h| ensures Owns(At(h, j, assoc, span), t, e, span) {
        KeptTo(h, i, j, assoc, span);
      }
    }
    if KeepsEntry(h, i, t, e, assoc, span) {
      forall j | i < j <= |h| ensures t in Resident(Tags(h)[..j], assoc) {
        assert Owns(At(h, j, assoc, span), t, e, span);
        AtTags(h, j, assoc, span);
      }
    }
  }

  /** The references that go on to the last level: those a first level of `assoc` ways misses. */
  function GoingOn(h: seq<Ref>, assoc: nat): (r: seq<Ref>)
  {
    if h == [] then []
    else
      var before, last := h[..|h|-1], h[|h|-1];
      if last.tag in Resident(Tags(before), assoc) then GoingOn(before, assoc)
      else GoingOn(before, assoc) + [last]
  }

  /** What two levels hold of the lines 2, 4 and 2. */
  lemma {:induction false} TwoLines()
    ensures 2 !in Resident([], 2) && 4 !in Resident([2], 2) && 2 in Resident([2, 4], 2)
    ensures 2 in Resident([2, 4, 2], 2) && 2 !in Resident([2, 4], 1)
  {
    assert [2][..0] == [] && [2, 4][..1] == [2] && [2, 4, 2][..2] == [2, 4];
    assert Recency([2]) == [2];
    assert Recency([2, 4]) == [4, 2];
    assert Recency([2, 4, 2])[0] == 2;
  }

  lemma {:induction false} BothGoOn(a: Ref, b: Ref)
    requires a.tag == 2 && b.tag == 4
    ensures GoingOn([a, b, a], 2) == [a, b]
  {
    hide Resident;
    TwoLines();
    assert [a, b, a][..2] == [a, b] && [a, b][..1] == [a] && [a][..0] == [];
    assert Tags([]) == [] && Tags([a]) == [2] && Tags([a, b]) == [2, 4];
    assert GoingOn([a], 2) == [a];
    assert GoingOn([a, b], 2) == [a, b];
  }

  lemma {:induction false} OneWay(s: State, r: Ref)
    requires Valid(s, 2) && |s.entries| == 1 && r.tag % 2 == 0 && r.tag > 0
    requires s.entries[0] % 2 == 0 && s.entries[0] != r.tag
    ensures Access(s, r, 2).entries == [r.tag]
  {
  }

  lemma {:induction false} RecordMoves(a: Ref, b: Ref)
    requires a.tag == 2 && b.tag == 4
    ensures Aligned([a, b], 2) && At([a, b], 1, 1, 2).entries == [2] && At([a, b], 2, 1, 2).entries == [4]
  {
    hide Access;
    var h := [a, b];
    AtStep(h, 0, 1, 2);
    AtStep(h, 1, 1, 2);
    assert h[..0] == [];
    OneWay(At(h, 0, 1, 2), a);
    OneWay(At(h, 1, 1, 2), b);
  }

  /** A first level of two ways in front of a last level of one way.  The lines 2, 4 and 2
      again are referenced; the third reference is a first-level hit and does not reach the
      last level.  The line 2 is still in the first level, but the last-level record it
      points to, number 0, now belongs to line 4. */
  lemma {:induction false} FirstLevelOutlives(a: Ref, b: Ref)
    requires a.tag == 2 && b.tag == 4
    ensures var h, on := [a, b, a], [a, b];
            2 in Resident(Tags(h), 2) && GoingOn(h, 2) == on && Aligned(on, 2) &&
            At(on, 1, 1, 2).entries == [2] && At(on, 2, 1, 2).entries == [4] &&
            Pointer(2, 2) == Pointer(4, 2) == 0 && !HeldSince(Tags(on), 0, 2, 1)
  {
    hide Resident, GoingOn, At;
    TwoLines();
    BothGoOn(a, b);
    RecordMoves(a, b);
    assert Tags([a, b, a]) == [2, 4, 2] && Tags([a, b]) == [2, 4] && [2, 4][..2] == [2, 4];
  }

  // ------------------------------------------------------------------ access counts

  function Counts(use: seq<Use>): (n: nat)
  {
    if use == [] then 0 else Counts(use[..|use|-1]) + use[|use|-1].count
  }

  lemma {:induction false} CountsUpdate(use: seq<Use>, p: nat, u: Use)
    requires p < |use|
    ensures Counts(use[p := u]) + use[p].count == Counts(use) + u.count
  {
    var n := |use| - 1;
    if p == n {
      assert use[p := u][..n] == use[..n];
    } else {
      CountsUpdate(use[..n], p, u);
      assert use[p := u][..n] == use[..n][p := u];
    }
  }

  /** The count that a reference retires, with the line it evicts. */
  function Retires(s: State, r: Ref, span: nat): (n: nat)
    requires Valid(s, span)
  {
    if r.tag in TagsOf(s.entries, span) then 0
    else s.use[Pointers(s.entries, span)[|s.entries|-1]].count
  }

  function Retired(h: seq<Ref>, assoc: nat, span: nat): (n: nat)
    requires 0 < assoc <= span && Aligned(h, span)
  {
    if h == [] then 0
    else
      var before := h[..|h|-1];
      Retired(before, assoc, span) + Retires(After(before, assoc, span), h[|h|-1], span)
  }

  lemma {:induction false} CountsOfCleared(assoc: nat, n: nat)
    requires n <= assoc
    ensures Counts(Cleared(assoc).use[..n]) == 0
  {
    if n > 0 {
      CountsOfCleared(assoc, n - 1);
      assert Cleared(assoc).use[..n][..n-1] == Cleared(assoc).use[..n-1];
    }
  }

  lemma {:induction false} CountsStep(s: State, r: Ref, span: nat)
    requires Valid(s, span)
    ensures Counts(Access(s, r, span).use) + Retires(s, r, span) == Counts(s.use) + 1
  {
    var p, tags := Pointers(s.entries, span), TagsOf(s.entries, span);
    if r.tag in tags {
      var q := p[IndexOf(tags, r.tag)];
      CountsUpdate(s.use, q, Use(s.use[q].count + 1, Or(s.use[q].mask, r.mask)));
    } else {
      CountsUpdate(s.use, p[|s.entries|-1], Use(1, r.mask));
    }
  }

  /** Every reference is counted once, with a line held or with a line evicted. */
  lemma {:induction false} EveryAccessCounted(h: seq<Ref>, assoc: nat, span: nat)
    requires 0 < assoc <= span && Aligned(h, span)
    ensures Retired(h, assoc, span) + Counts(After(h, assoc, span).use) == |h|
  {
    if h == [] {
      CountsOfCleared(assoc, assoc);
      assert Cleared(assoc).use[..assoc] == Cleared(assoc).use;
    } else {
      var before := h[..|h|-1];
      EveryAccessCounted(before, assoc, span);
      CountsStep(After(before, assoc, span), h[|h|-1], span);
    }
  }

  // ------------------------------------------------------------------ the code

  lemma {:induction false} HitAt(s: State, r: Ref, i: nat, span: nat)
    requires Valid(s, span) && i < |s.entries| && Tag(s.entries[i], span) == r.tag
    requires Absent(s.entries, r.tag, i, span)
    ensures r.tag in TagsOf(s.entries, span) && Access(s, r, span) == OnHit(s, r, i, span)
  {
    IndexUnique(TagsOf(s.entries, span), r.tag, i);
  }

  lemma {:induction false} MissAt(s: State, r: Ref, span: nat)
    requires Valid(s, span) && Absent(s.entries, r.tag, |s.entries|, span)
    ensures r.tag !in TagsOf(s.entries, span) && Access(s, r, span) == OnMiss(s, r, span)
  {
  }

  /** Put `x` in front of the other entries but number `i`. */
  method Rotate(tags: array<nat>, base: nat, assoc: nat, i: nat, x: nat)
    requires base + assoc <= tags.Length && i < assoc
    modifies tags
    ensures var s := old(tags[base..base+assoc]); tags[base..base+assoc] == [x] + s[..i] + s[i+1..]
    ensures forall k :: 0 <= k < tags.Length && !(base <= k < base + assoc) ==> tags[k] == old(tags[k])
  {
    ghost var s := tags[base..base+assoc];
    CacheSim.MoveToFront(tags, base, i, x);
    ghost var t := tags[base..base+assoc];
    forall k | 0 <= k < assoc ensures t[k] == ([x] + s[..i] + s[i+1..])[k] {
      assert t[k] == tags[base+k];
      if k > 0 { CutAt(s, x, i, k); }
    }
  }

  /** Rewrite one use record of a set. */
  method Record(use: array<Use>, base: nat, assoc: nat, p: nat, u: Use)
    requires base + assoc <= use.Length && p < assoc
    modifies use
    ensures use[base..base+assoc] == old(use[base..base+assoc])[p := u]
    ensures forall k :: 0 <= k < use.Length && !(base <= k < base + assoc) ==> use[k] == old(use[k])
  {
    use[base+p] := u;
  }

  method Hit(tags: array<nat>, use: array<Use>, base: nat, assoc: nat, span: nat, r: Ref, i: nat, ghost s: State)
    requires base + assoc <= tags.Length == use.Length && i < assoc
    requires s.entries == tags[base..base+assoc] && s.use == use[base..base+assoc]
    requires Valid(s, span) && Tag(s.entries[i], span) == r.tag && Absent(s.entries, r.tag, i, span)
    modifies tags, use
    ensures r.tag in TagsOf(s.entries, span)
    ensures tags[base..base+assoc] == Access(s, r, span).entries && use[base..base+assoc] == Access(s, r, span).use
    ensures forall k :: 0 <= k < tags.Length && !(base <= k < base + assoc) ==> tags[k] == old(tags[k])
    ensures forall k :: 0 <= k < use.Length && !(base <= k < base + assoc) ==> use[k] == old(use[k])
  {
    var e := tags[base+i];
    var p := Pointer(e, span);
    assert p == Pointers(s.entries, span)[i];
    HitAt(s, r, i, span);
    Rotate(tags, base, assoc, i, e);
    var u := use[base+p];
    assert u == s.use[p];
    Record(use, base, assoc, p, Use(u.count + 1, Or(u.mask, r.mask)));
  }

  method Miss(tags: array<nat>, use: array<Use>, base: nat, assoc: nat, span: nat, r: Ref, ghost s: State)
    requires base + assoc <= tags.Length == use.Length
    requires s.entries == tags[base..base+assoc] && s.use == use[base..base+assoc]
    requires Valid(s, span) && Absent(s.entries, r.tag, assoc, span)
    modifies tags, use
    ensures r.tag !in TagsOf(s.entries, span)
    ensures tags[base..base+assoc] == Access(s, r, span).entries && use[base..base+assoc] == Access(s, r, span).use
    ensures forall k :: 0 <= k < tags.Length && !(base <= k < base + assoc) ==> tags[k] == old(tags[k])
    ensures forall k :: 0 <= k < use.Length && !(base <= k < base + assoc) ==> use[k] == old(use[k])
  {
    var p := Pointer(tags[base+assoc-1], span);
    assert p == Pointers(s.entries, span)[assoc-1];
    MissAt(s, r, span);
    Rotate(tags, base, assoc, assoc - 1, r.tag + p);
    assert s.entries[assoc..] == [];
    Record(use, base, assoc, p, Use(1, r.mask));
  }

  /** Look up a tag in the `assoc` entries starting at `base`, keep the entries in order of
      use, and update the use record of the line.  `s` is the set before the call. */
  method SetUse(tags: array<nat>, use: array<Use>, base: nat, assoc: nat, span: nat, r: Ref, ghost s: State)
    returns (hit: bool)
    requires base + assoc <= tags.Length == use.Length && Valid(s, span)
    requires s.entries == tags[base..base+assoc] && s.use == use[base..base+assoc]
    modifies tags, use
    ensures hit <==> r.tag in TagsOf(s.entries, span)
    ensures tags[base..base+assoc] == Access(s, r, span).entries && use[base..base+assoc] == Access(s, r, span).use
    ensures forall k :: 0 <= k < tags.Length && !(base <= k < base + assoc) ==> tags[k] == old(tags[k])
    ensures forall k :: 0 <= k < use.Length && !(base <= k < base + assoc) ==> use[k] == old(use[k])
  {
    var i := 0;
    while i < assoc && r.tag != Tag(tags[base+i], span)
      invariant 0 <= i <= assoc && Absent(s.entries, r.tag, i, span)
    {
      i := i + 1;
    }
    hit := i < assoc;
    if hit {
      Hit(tags, use, base, assoc, span, r, i, s);
    } else {
      Miss(tags, use, base, assoc, span, r, s);
    }
  }
}
