/** Callgrind's write-back simulation of one cache set: the dirty state of a line is bit 0
    of its tag, so tags proper are even. */
module WriteBack {
  import opened Arith
  import opened LruStack
  import CacheSim

  datatype Ref = Ref(tag: nat, write: bool)

  datatype Result = Hit | Miss | MissDirty

  function Clean(x: nat): (t: nat)
    ensures t % 2 == 0 && t <= x <= t + 1
  {
    x - x % 2
  }

  function CleanAll(s: seq<nat>): (c: seq<nat>)
    ensures |c| == |s| && forall k :: 0 <= k < |s| ==> c[k] == Clean(s[k])
  {
    seq(|s|, k requires 0 <= k < |s| => Clean(s[k]))
  }

  /** OR in the kind of the reference. */
  function Marked(x: nat, write: bool): (y: nat)
    ensures Clean(y) == Clean(x) && (y % 2 == 1 <==> write || x % 2 == 1)
  {
    if write then Clean(x) + 1 else x
  }

  predicate Plain(h: seq<Ref>)
  {
    forall r :: r in h ==> r.tag % 2 == 0
  }

  /** One reference to a set. */
  function Access(s: seq<nat>, r: Ref): (t: seq<nat>)
    requires |s| > 0
    ensures |t| == |s|
  {
    if r.tag in CleanAll(s) then
      var i := IndexOf(CleanAll(s), r.tag);
      [Marked(s[i], r.write)] + s[..i] + s[i+1..]
    else
      [Marked(r.tag, r.write)] + s[..|s|-1]
  }

  function Outcome(s: seq<nat>, r: Ref): (o: Result)
    requires |s| > 0
  {
    if r.tag in CleanAll(s) then Hit else if s[|s|-1] % 2 == 1 then MissDirty else Miss
  }

  /** The set after a history of references, starting cleared. */
  function State(h: seq<Ref>, assoc: nat): (s: seq<nat>)
    requires assoc > 0
    ensures |s| == assoc
  {
    if h == [] then Zeros(assoc) else Access(State(h[..|h|-1], assoc), h[|h|-1])
  }

  function Tags(h: seq<Ref>): (t: seq<nat>)
    ensures |t| == |h| && forall k :: 0 <= k < |h| ==> t[k] == h[k].tag
  {
    seq(|h|, k requires 0 <= k < |h| => h[k].tag)
  }

  // ------------------------------------------------------------------ erasing the dirty bit

  lemma {:induction false} CleanConcat(x: seq<nat>, y: seq<nat>)
    ensures CleanAll(x + y) == CleanAll(x) + CleanAll(y)
  {
  }

  lemma {:induction false} CleanSlice(s: seq<nat>, lo: nat, hi: nat)
    requires lo <= hi <= |s|
    ensures CleanAll(s[lo..hi]) == CleanAll(s)[lo..hi]
  {
  }

  lemma {:induction false} CleanCut(s: seq<nat>, x: nat, i: nat)
    requires i < |s|
    ensures CleanAll([x] + s[..i] + s[i+1..]) == [Clean(x)] + CleanAll(s)[..i] + CleanAll(s)[i+1..]
  {
    CleanConcat([x] + s[..i], s[i+1..]);
    CleanConcat([x], s[..i]);
    CleanSlice(s, 0, i);
    CleanSlice(s, i + 1, |s|);
    assert CleanAll([x]) == [Clean(x)];
  }

  /** Erasing the dirty bits before or after a reference is the same: the write-back set
      does what the simple one does. */
  lemma {:induction false} ErasureSimulates(s: seq<nat>, r: Ref)
    requires |s| > 0 && r.tag % 2 == 0
    ensures CleanAll(Access(s, r)) == Touch(CleanAll(s), r.tag)
    ensures Outcome(s, r).Hit? <==> r.tag in CleanAll(s)
  {
    var c := CleanAll(s);
    if r.tag in c {
      var i := IndexOf(c, r.tag);
      CleanCut(s, Marked(s[i], r.write), i);
    } else {
      assert CleanAll(Access(s, r)) == [r.tag] + c[..|c|-1];
    }
  }

  /** Over every trace, the erased set is the LRU list of the tags referenced, so hits and
      misses are those of the simple simulation. */
  lemma {:induction false} ErasureOverRuns(h: seq<Ref>, assoc: nat)
    requires assoc > 0 && Plain(h)
    ensures CleanAll(State(h, assoc)) == Resident(Tags(h), assoc)
  {
    if h == [] {
      assert Recency(Tags(h)) == [];
    } else {
      var before, r := h[..|h|-1], h[|h|-1];
      ErasureOverRuns(before, assoc);
      ErasureSimulates(State(before, assoc), r);
      TouchFollowsHistory(Tags(before), assoc, r.tag);
      assert Tags(h) == Tags(before) + [r.tag];
    }
  }

  // ------------------------------------------------------------------ conservation

  function DirtyLines(s: seq<nat>): (n: nat)
  {
    if s == [] then 0 else (s[0] % 2) + DirtyLines(s[1..])
  }

  lemma {:induction false} DirtyConcat(x: seq<nat>, y: seq<nat>)
    ensures DirtyLines(x + y) == DirtyLines(x) + DirtyLines(y)
  {
    if x == [] {
      assert x + y == y;
    } else {
      DirtyConcat(x[1..], y);
      assert (x + y)[1..] == x[1..] + y;
    }
  }

  /** A write that finds no dirty line of its tag. */
  predicate Dirties(s: seq<nat>, r: Ref)
    requires |s| > 0
  {
    r.write && !(r.tag in CleanAll(s) && s[IndexOf(CleanAll(s), r.tag)] % 2 == 1)
  }

  function Count(b: bool): (n: nat)
  {
    if b then 1 else 0
  }

  lemma {:induction false} DirtyFront(x: nat, s: seq<nat>)
    ensures DirtyLines([x] + s) == x % 2 + DirtyLines(s)
  {
    assert ([x] + s)[1..] == s;
  }

  lemma {:induction false} DirtyStep(s: seq<nat>, r: Ref)
    requires |s| > 0 && r.tag % 2 == 0
    ensures DirtyLines(Access(s, r)) + Count(Outcome(s, r).MissDirty?) == DirtyLines(s) + Count(Dirties(s, r))
  {
    var c := CleanAll(s);
    if r.tag in c {
      var i := IndexOf(c, r.tag);
      var x := Marked(s[i], r.write);
      assert [x] + s[..i] + s[i+1..] == [x] + (s[..i] + s[i+1..]);
      DirtyFront(x, s[..i] + s[i+1..]);
      DirtyConcat(s[..i], s[i+1..]);
      DirtyFront(s[i], s[i+1..]);
      DirtyConcat(s[..i], [s[i]] + s[i+1..]);
      assert s == s[..i] + ([s[i]] + s[i+1..]);
    } else {
      var n := |s| - 1;
      DirtyFront(Marked(r.tag, r.write), s[..n]);
      DirtyConcat(s[..n], [s[n]]);
      DirtyFront(s[n], []);
      assert s == s[..n] + [s[n]] && [s[n]] == [s[n]] + [];
    }
  }

  /** References of a history that evict a dirty line. */
  function WriteBacks(h: seq<Ref>, assoc: nat): (n: nat)
    requires assoc > 0
  {
    if h == [] then 0
    else
      var before := h[..|h|-1];
      WriteBacks(before, assoc) + Count(Outcome(State(before, assoc), h[|h|-1]).MissDirty?)
  }

  /** References that make a line dirty. */
  function Dirtied(h: seq<Ref>, assoc: nat): (n: nat)
    requires assoc > 0
  {
    if h == [] then 0
    else
      var before := h[..|h|-1];
      Dirtied(before, assoc) + Count(Dirties(State(before, assoc), h[|h|-1]))
  }

  function Writes(h: seq<Ref>): (n: nat)
  {
    if h == [] then 0 else Writes(h[..|h|-1]) + Count(h[|h|-1].write)
  }

  lemma {:induction false} NoDirtyZeros(n: nat)
    ensures DirtyLines(Zeros(n)) == 0
  {
    if n > 0 {
      NoDirtyZeros(n - 1);
      assert Zeros(n)[1..] == Zeros(n - 1);
    }
  }

  /** Every line made dirty is still there or was written back once. */
  lemma {:induction false} DirtyConserved(h: seq<Ref>, assoc: nat)
    requires assoc > 0 && Plain(h)
    ensures WriteBacks(h, assoc) + DirtyLines(State(h, assoc)) == Dirtied(h, assoc) <= Writes(h)
  {
    if h == [] {
      NoDirtyZeros(assoc);
    } else {
      var before, r := h[..|h|-1], h[|h|-1];
      DirtyConserved(before, assoc);
      DirtyStep(State(before, assoc), r);
    }
  }

  // ------------------------------------------------------------------ what dirty means

  /** Written at some point of the history and in the set ever since. */
  ghost predicate WrittenSinceLoad(h: seq<Ref>, t: nat, assoc: nat)
  {
    exists i :: 0 <= i < |h| && h[i] == Ref(t, true) && HeldSince(Tags(h), i, t, assoc)
  }

  lemma {:induction false} TagsStep(h: seq<Ref>, r: Ref)
    ensures Tags(h + [r]) == Tags(h) + [r.tag]
  {
  }

  lemma {:induction false} JustUsedIsResident(h: seq<Ref>, r: Ref, assoc: nat)
    requires assoc > 0
    ensures r.tag in Resident(Tags(h + [r]), assoc)
  {
    TagsStep(h, r);
    RecencyStep(Tags(h), r.tag);
    assert Resident(Tags(h + [r]), assoc)[0] == r.tag;
  }

  lemma {:induction false} WrittenBefore(h: seq<Ref>, r: Ref, t: nat, assoc: nat)
    requires WrittenSinceLoad(h, t, assoc) && t in Resident(Tags(h + [r]), assoc)
    ensures WrittenSinceLoad(h + [r], t, assoc)
  {
    var i :| 0 <= i < |h| && h[i] == Ref(t, true) && HeldSince(Tags(h), i, t, assoc);
    TagsStep(h, r);
    HeldStep(Tags(h), r.tag, i, t, assoc);
    assert (h + [r])[i] == Ref(t, true);
  }

  lemma {:induction false} WrittenAfter(h: seq<Ref>, r: Ref, t: nat, assoc: nat)
    requires WrittenSinceLoad(h + [r], t, assoc) && r != Ref(t, true)
    ensures WrittenSinceLoad(h, t, assoc) && t in Resident(Tags(h + [r]), assoc)
  {
    var g := h + [r];
    var i :| 0 <= i < |g| && g[i] == Ref(t, true) && HeldSince(Tags(g), i, t, assoc);
    TagsStep(h, r);
    HeldStep(Tags(h), r.tag, i, t, assoc);
    assert h[i] == Ref(t, true);
  }

  lemma {:induction false} WrittenNow(h: seq<Ref>, t: nat, assoc: nat)
    requires assoc > 0
    ensures WrittenSinceLoad(h + [Ref(t, true)], t, assoc)
  {
    var r := Ref(t, true);
    var g := h + [r];
    JustUsedIsResident(h, r, assoc);
    assert Tags(g)[..|g|] == Tags(g);
    assert g[|h|] == r && HeldSince(Tags(g), |h|, t, assoc);
  }

  lemma {:induction false} WrittenStep(h: seq<Ref>, r: Ref, t: nat, assoc: nat)
    requires assoc > 0
    ensures WrittenSinceLoad(h + [r], t, assoc) <==>
            r == Ref(t, true) || (WrittenSinceLoad(h, t, assoc) && t in Resident(Tags(h + [r]), assoc))
  {
    if r == Ref(t, true) {
      WrittenNow(h, t, assoc);
    } else if WrittenSinceLoad(h + [r], t, assoc) {
      WrittenAfter(h, r, t, assoc);
    } else if WrittenSinceLoad(h, t, assoc) && t in Resident(Tags(h + [r]), assoc) {
      WrittenBefore(h, r, t, assoc);
    }
  }

  /** Exactly the lines written since they were loaded are dirty; padding (a repeated 0) is
      clean. */
  ghost predicate MarksWritten(s: seq<nat>, h: seq<Ref>, assoc: nat)
  {
    var c := CleanAll(s);
    forall k :: 0 <= k < |s| ==>
      (s[k] % 2 == 1 <==> c[k] !in c[..k] && WrittenSinceLoad(h, c[k], assoc))
  }

  lemma {:induction false} WrittenIsResident(h: seq<Ref>, t: nat, assoc: nat)
    requires WrittenSinceLoad(h, t, assoc)
    ensures t in Resident(Tags(h), assoc)
  {
    assert Tags(h)[..|h|] == Tags(h);
  }

  /** A reference does not change what a line other than its own and still held means. */
  lemma {:induction false} OtherKept(h: seq<Ref>, r: Ref, t: nat, assoc: nat)
    requires assoc > 0 && t != r.tag && t in Resident(Tags(h + [r]), assoc)
    ensures WrittenSinceLoad(h + [r], t, assoc) <==> WrittenSinceLoad(h, t, assoc)
  {
    WrittenStep(h, r, t, assoc);
  }

  lemma {:induction false} OwnMarked(h: seq<Ref>, r: Ref, assoc: nat)
    requires assoc > 0
    ensures WrittenSinceLoad(h + [r], r.tag, assoc) <==> r.write || WrittenSinceLoad(h, r.tag, assoc)
  {
    WrittenStep(h, r, r.tag, assoc);
    JustUsedIsResident(h, r, assoc);
  }

  lemma {:induction false} MarksOnMiss(s: seq<nat>, h: seq<Ref>, r: Ref, assoc: nat)
    requires |s| == assoc > 0 && r.tag % 2 == 0 && r.tag !in CleanAll(s)
    requires CleanAll(s) == Resident(Tags(h), assoc) && MarksWritten(s, h, assoc)
    requires CleanAll(Access(s, r)) == Resident(Tags(h + [r]), assoc)
    ensures MarksWritten(Access(s, r), h + [r], assoc)
  {
    var c, t := CleanAll(s), Access(s, r);
    var e := CleanAll(t);
    OwnMarked(h, r, assoc);
    if WrittenSinceLoad(h, r.tag, assoc) { WrittenIsResident(h, r.tag, assoc); }
    forall k | 0 < k < |t|
      ensures t[k] % 2 == 1 <==> e[k] !in e[..k] && WrittenSinceLoad(h + [r], e[k], assoc)
    {
      assert t[k] == s[k-1] && e[k] == c[k-1];
      assert e[..k] == [r.tag] + c[..k-1];
      OtherKept(h, r, e[k], assoc);
    }
  }

  /** Where entry `k` of the set comes from after a hit at position `i`. */
  lemma {:induction false} FrontOfHit(c: seq<nat>, i: nat, k: nat)
    requires i < |c| && 0 < k < |c| && c[i] !in c[..i]
    ensures var e, j := [c[i]] + c[..i] + c[i+1..], if k <= i then k - 1 else k;
            e[k] == c[j] && (e[k] !in e[..k] <==> c[j] != c[i] && c[j] !in c[..j])
  {
    var e, j := [c[i]] + c[..i] + c[i+1..], if k <= i then k - 1 else k;
    if k <= i {
      assert e[..k] == [c[i]] + c[..j];
    } else {
      assert e[..k] == [c[i]] + c[..i] + c[i+1..k];
      assert c[..k] == c[..i] + [c[i]] + c[i+1..k];
    }
  }

  lemma {:induction false} CutIndex(s: seq<nat>, x: nat, i: nat, k: nat)
    requires i < |s| && 0 < k < |s|
    ensures ([x] + s[..i] + s[i+1..])[k] == s[if k <= i then k - 1 else k]
  {
  }

  lemma {:induction false} MarkKeptOnHit(s: seq<nat>, h: seq<Ref>, r: Ref, assoc: nat, k: nat)
    requires 0 < k < |s| == assoc && r.tag in CleanAll(s) && MarksWritten(s, h, assoc)
    requires CleanAll(Access(s, r)) == Resident(Tags(h + [r]), assoc)
    ensures var t := Access(s, r);
            var e := CleanAll(t);
            t[k] % 2 == 1 <==> e[k] !in e[..k] && WrittenSinceLoad(h + [r], e[k], assoc)
  {
    var c, e := CleanAll(s), CleanAll(Access(s, r));
    var i := IndexOf(c, r.tag);
    var j := if k <= i then k - 1 else k;
    CleanCut(s, Marked(s[i], r.write), i);
    CutIndex(s, Marked(s[i], r.write), i, k);
    FrontOfHit(c, i, k);
    if c[j] == r.tag {
      RepeatIsClean(s, h, assoc, i, j);
    } else {
      assert e[k] in Resident(Tags(h + [r]), assoc);
      OtherKept(h, r, c[j], assoc);
      assert s[j] % 2 == 1 <==> c[j] !in c[..j] && WrittenSinceLoad(h, c[j], assoc);
    }
  }

  lemma {:induction false} RepeatIsClean(s: seq<nat>, h: seq<Ref>, assoc: nat, i: nat, j: nat)
    requires MarksWritten(s, h, assoc) && i < |s| && j < |s| && i != j
    requires CleanAll(s)[i] == CleanAll(s)[j] && CleanAll(s)[i] !in CleanAll(s)[..i]
    ensures s[j] % 2 == 0
  {
    var c := CleanAll(s);
    assert c[..j][i] == c[i];
  }

  lemma {:induction false} MarksOnHit(s: seq<nat>, h: seq<Ref>, r: Ref, assoc: nat)
    requires |s| == assoc > 0 && r.tag in CleanAll(s)
    requires MarksWritten(s, h, assoc)
    requires CleanAll(Access(s, r)) == Resident(Tags(h + [r]), assoc)
    ensures MarksWritten(Access(s, r), h + [r], assoc)
  {
    var t := Access(s, r);
    var e := CleanAll(t);
    OwnMarked(h, r, assoc);
    assert t[0] % 2 == 1 <==> WrittenSinceLoad(h + [r], e[0], assoc);
    forall k | 0 < k < |t|
      ensures t[k] % 2 == 1 <==> e[k] !in e[..k] && WrittenSinceLoad(h + [r], e[k], assoc)
    {
      MarkKeptOnHit(s, h, r, assoc, k);
    }
  }

  lemma {:induction false} MarksStep(s: seq<nat>, h: seq<Ref>, r: Ref, assoc: nat)
    requires |s| == assoc > 0 && r.tag % 2 == 0 && MarksWritten(s, h, assoc)
    requires CleanAll(s) == Resident(Tags(h), assoc)
    ensures MarksWritten(Access(s, r), h + [r], assoc)
  {
    ErasureSimulates(s, r);
    TouchFollowsHistory(Tags(h), assoc, r.tag);
    TagsStep(h, r);
    if r.tag in CleanAll(s) {
      MarksOnHit(s, h, r, assoc);
    } else {
      MarksOnMiss(s, h, r, assoc);
    }
  }

  lemma {:induction false} MarksAtStart(assoc: nat)
    ensures MarksWritten(Zeros(assoc), [], assoc)
  {
  }

  /** After every trace, a line is dirty if and only if it was written since it was loaded. */
  lemma {:induction false} DirtyIffWritten(h: seq<Ref>, assoc: nat)
    requires assoc > 0 && Plain(h)
    ensures MarksWritten(State(h, assoc), h, assoc)
  {
    if h == [] {
      MarksAtStart(assoc);
    } else {
      var before, r := h[..|h|-1], h[|h|-1];
      DirtyIffWritten(before, assoc);
      ErasureOverRuns(before, assoc);
      MarksStep(State(before, assoc), before, r, assoc);
      assert h == before + [r];
    }
  }

  /** A reference writes a line back exactly when it misses and the line it evicts was
      written since it was loaded. */
  lemma {:induction false} WritesBackIff(h: seq<Ref>, r: Ref, assoc: nat)
    requires assoc > 0 && Plain(h)
    ensures var held := Resident(Tags(h), assoc);
            var victim := held[assoc-1];
            Outcome(State(h, assoc), r).MissDirty? <==>
              r.tag !in held && victim !in held[..assoc-1] && WrittenSinceLoad(h, victim, assoc)
  {
    ErasureOverRuns(h, assoc);
    DirtyIffWritten(h, assoc);
  }

  // ------------------------------------------------------------------ the code

  lemma {:induction false} HitAt(s: seq<nat>, r: Ref, i: nat, t: seq<nat>)
    requires i < |s| == |t| && Clean(s[i]) == r.tag
    requires forall k :: 0 <= k < i ==> CleanAll(s)[k] != r.tag
    requires t[0] == Marked(s[i], r.write) && forall k :: 0 < k <= i ==> t[k] == s[k-1]
    requires forall k :: i < k < |s| ==> t[k] == s[k]
    ensures t == Access(s, r) && Outcome(s, r) == Hit
  {
    IndexUnique(CleanAll(s), r.tag, i);
    assert t == [Marked(s[i], r.write)] + s[..i] + s[i+1..];
  }

  lemma {:induction false} MissAt(s: seq<nat>, r: Ref, t: seq<nat>)
    requires 0 < |s| == |t| && forall k :: 0 <= k < |s| ==> CleanAll(s)[k] != r.tag
    requires t[0] == Marked(r.tag, r.write) && forall k :: 0 < k < |s| ==> t[k] == s[k-1]
    ensures t == Access(s, r) && Outcome(s, r) == if s[|s|-1] % 2 == 1 then MissDirty else Miss
  {
    assert t == [Marked(r.tag, r.write)] + s[..|s|-1];
  }

  /** Reference a tag in the `assoc` entries starting at `base`. */
  method SetRefWb(tags: array<nat>, base: nat, assoc: nat, r: Ref) returns (o: Result)
    requires assoc > 0 && base + assoc <= tags.Length
    modifies tags
    ensures tags[base..base+assoc] == Access(old(tags[base..base+assoc]), r)
    ensures o == Outcome(old(tags[base..base+assoc]), r)
    ensures forall k :: 0 <= k < tags.Length && !(base <= k < base + assoc) ==> tags[k] == old(tags[k])
  {
    hide Access, Outcome;
    ghost var s := tags[base..base+assoc];
    if r.tag == Clean(tags[base]) {
      tags[base] := Marked(tags[base], r.write);
      HitAt(s, r, 0, tags[base..base+assoc]);
      return Hit;
    }
    var i := 1;
    while i < assoc
      invariant 1 <= i <= assoc
      invariant forall k :: 0 <= k < i ==> CleanAll(s)[k] != r.tag
    {
      if r.tag == Clean(tags[base+i]) {
        CacheSim.MoveToFront(tags, base, i, Marked(tags[base+i], r.write));
        HitAt(s, r, i, tags[base..base+assoc]);
        return Hit;
      }
      i := i + 1;
    }
    var evicted := tags[base+assoc-1];
    CacheSim.MoveToFront(tags, base, assoc - 1, Marked(r.tag, r.write));
    MissAt(s, r, tags[base..base+assoc]);
    return if evicted % 2 == 1 then MissDirty else Miss;
  }
}
