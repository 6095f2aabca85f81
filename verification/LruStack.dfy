/** The abstract meaning of one set of an LRU cache.

    A set is driven by the sequence of tags referenced in it, oldest first.  `Recency`
    lists the distinct tags of such a history, most recent first, and `Resident` is what
    an `assoc`-way set holds: the recency list padded with zeros (the value the tag
    array is cleared to) and cut to `assoc`.  `Touch` is the array update of the
    simulators.  The lemmas connect the two descriptions. */
module LruStack {
  import opened Arith

  /** Position of the first occurrence of `t`. */
  function IndexOf(s: seq<nat>, t: nat): (i: nat)
    requires t in s
    ensures i < |s| && s[i] == t && t !in s[..i]
  {
    if s[0] == t then 0 else 1 + IndexOf(s[1..], t)
  }

  lemma {:induction false} IndexUnique(s: seq<nat>, t: nat, i: nat)
    requires i < |s| && s[i] == t && t !in s[..i]
    ensures IndexOf(s, t) == i
  {
    var j := IndexOf(s, t);
    assert forall k :: 0 <= k < i ==> s[..i][k] != t;
    assert forall k :: 0 <= k < j ==> s[..j][k] != t;
  }

  /** One reference to a set: move the tag to the front, or install it there and drop
      the last entry. */
  function Touch(s: seq<nat>, t: nat): (r: seq<nat>)
    requires |s| > 0
    ensures |r| == |s| && r[0] == t
  {
    if t in s then
      var i := IndexOf(s, t);
      [t] + s[..i] + s[i+1..]
    else
      [t] + s[..|s|-1]
  }

  function Without(s: seq<nat>, t: nat): (r: seq<nat>)
  {
    if s == [] then []
    else if s[0] == t then Without(s[1..], t)
    else [s[0]] + Without(s[1..], t)
  }

  function Recency(refs: seq<nat>): (r: seq<nat>)
  {
    if refs == [] then []
    else
      var t := refs[|refs|-1];
      [t] + Without(Recency(refs[..|refs|-1]), t)
  }

  /** A recency list padded with zeros and cut to `assoc` entries. */
  function Pad(d: seq<nat>, assoc: nat): (r: seq<nat>)
    ensures |r| == assoc
    ensures forall k :: 0 <= k < assoc ==> r[k] == if k < |d| then d[k] else 0
  {
    (d + Zeros(assoc))[..assoc]
  }

  function Resident(refs: seq<nat>, assoc: nat): (r: seq<nat>)
    ensures |r| == assoc
  {
    Pad(Recency(refs), assoc)
  }

  function Elems(s: seq<nat>): (r: set<nat>)
  {
    set x | x in s
  }

  // ---------------------------------------------------------------- removing a tag

  lemma {:induction false} WithoutAbsent(s: seq<nat>, t: nat)
    requires t !in s
    ensures Without(s, t) == s
  {
    if s != [] {
      WithoutAbsent(s[1..], t);
      assert s == [s[0]] + s[1..];
    }
  }

  lemma {:induction false} WithoutMember(s: seq<nat>, t: nat, x: nat)
    ensures x in Without(s, t) <==> x in s && x != t
  {
    if s != [] {
      WithoutMember(s[1..], t, x);
      assert s == [s[0]] + s[1..];
    }
  }

  lemma {:induction false} DistinctTail(s: seq<nat>)
    requires Distinct(s) && s != []
    ensures Distinct(s[1..]) && s[0] !in s[1..]
  {
    assert forall k :: 0 <= k < |s| - 1 ==> s[1..][k] == s[k+1];
  }

  /** In a list without repetitions, removing a tag is cutting out one position. */
  lemma {:induction false} WithoutAt(s: seq<nat>, i: nat)
    requires Distinct(s) && i < |s|
    ensures Without(s, s[i]) == s[..i] + s[i+1..]
  {
    var t := s[i];
    assert s == [s[0]] + s[1..];
    DistinctTail(s);
    if i == 0 {
      WithoutAbsent(s[1..], t);
    } else {
      assert s[1..][i-1] == t;
      WithoutAt(s[1..], i - 1);
      assert s[..i] == [s[0]] + s[1..][..i-1];
      assert s[i+1..] == s[1..][i..];
    }
  }

  lemma {:induction false} DistinctWithout(s: seq<nat>, t: nat)
    requires Distinct(s)
    ensures Distinct(Without(s, t))
  {
    if t in s {
      WithoutAt(s, IndexOf(s, t));
    } else {
      WithoutAbsent(s, t);
    }
  }

  // ---------------------------------------------------------------- the recency list

  /** The recency list holds each tag of the history exactly once. */
  lemma {:induction false} RecencyIsDistinctHistory(refs: seq<nat>, x: nat)
    ensures Distinct(Recency(refs))
    ensures x in Recency(refs) <==> x in refs
  {
    if refs != [] {
      var t, before := refs[|refs|-1], refs[..|refs|-1];
      RecencyIsDistinctHistory(before, x);
      DistinctWithout(Recency(before), t);
      WithoutMember(Recency(before), t, x);
      WithoutMember(Recency(before), t, t);
      assert refs == before + [t];
    }
  }

  lemma {:induction false} RecencyStep(refs: seq<nat>, t: nat)
    ensures Recency(refs + [t]) == [t] + Without(Recency(refs), t)
  {
    assert (refs + [t])[..|refs|] == refs;
  }

  lemma {:induction false} TouchResidentTag(d: seq<nat>, assoc: nat, i: nat)
    requires Distinct(d) && i < |d| && i < assoc
    ensures Touch(Pad(d, assoc), d[i]) == Pad([d[i]] + Without(d, d[i]), assoc)
  {
    var held, t := Pad(d, assoc), d[i];
    assert held[i] == t;
    assert t !in held[..i];
    IndexUnique(held, t, i);
    WithoutAt(d, i);
    PadCut(d, assoc, i);
  }

  /** Cutting out one resident position before or after padding is the same. */
  lemma {:induction false} PadCut(d: seq<nat>, assoc: nat, i: nat)
    requires i < |d| && i < assoc
    ensures [d[i]] + Pad(d, assoc)[..i] + Pad(d, assoc)[i+1..]
            == Pad([d[i]] + (d[..i] + d[i+1..]), assoc)
  {
    var held := Pad(d, assoc);
    var cut := [d[i]] + (d[..i] + d[i+1..]);
    assert forall k :: 0 <= k < i ==> cut[k+1] == d[k];
    assert forall k :: i < k < |d| ==> cut[k] == d[k];
  }

  lemma {:induction false} TouchEvictedTag(d: seq<nat>, assoc: nat, i: nat)
    requires Distinct(d) && 0 < assoc <= i < |d|
    ensures Touch(Pad(d, assoc), d[i]) == Pad([d[i]] + Without(d, d[i]), assoc)
  {
    assert d[i] !in Pad(d, assoc);
    WithoutAt(d, i);
  }

  lemma {:induction false} TouchNewTag(d: seq<nat>, assoc: nat, t: nat)
    requires t !in d && assoc > 0
    ensures Touch(Pad(d, assoc), t) == Pad([t] + Without(d, t), assoc)
  {
    var held := Pad(d, assoc);
    WithoutAbsent(d, t);
    if t in held {
      // only padding can match: tag 0 in a set that is not full
      assert |d| < assoc && t == 0 && held[|d|] == 0;
      assert held[..|d|] == d;
      IndexUnique(held, t, |d|);
    }
  }

  /** The array update keeps a set equal to the cut, padded recency list of its history,
      whatever the tag (tag 0 included) and however long the history. */
  lemma {:induction false} TouchFollowsHistory(refs: seq<nat>, assoc: nat, t: nat)
    requires assoc > 0
    ensures Touch(Resident(refs, assoc), t) == Resident(refs + [t], assoc)
  {
    var d := Recency(refs);
    RecencyStep(refs, t);
    RecencyIsDistinctHistory(refs, t);
    if t !in d {
      TouchNewTag(d, assoc, t);
    } else if IndexOf(d, t) < assoc {
      TouchResidentTag(d, assoc, IndexOf(d, t));
    } else {
      TouchEvictedTag(d, assoc, IndexOf(d, t));
    }
  }

  // ---------------------------------------------------------------- reuse distance

  /** Index of the latest reference to `t`. */
  function LastUse(refs: seq<nat>, t: nat): (i: nat)
    requires t in refs
    ensures i < |refs| && refs[i] == t && t !in refs[i+1..]
  {
    if refs[|refs|-1] == t then |refs| - 1 else LastUse(refs[..|refs|-1], t)
  }

  /** The other tags referenced since the latest use of `t`. */
  function SinceLastUse(refs: seq<nat>, t: nat): set<nat>
    requires t in refs
  {
    Elems(refs[LastUse(refs, t)+1..])
  }

  /** What stands in front of `t` in a list. */
  function Ahead(d: seq<nat>, t: nat): seq<nat>
    requires t in d
  {
    d[..IndexOf(d, t)]
  }

  lemma {:induction false} AheadCons(x: nat, d: seq<nat>, t: nat)
    requires x != t && t in d
    ensures Ahead([x] + d, t) == [x] + Ahead(d, t)
  {
    var s, i := [x] + d, IndexOf(d, t);
    assert s[..1+i] == [x] + d[..i];
    IndexUnique(s, t, 1 + i);
  }

  /** Removing `y` removes just `y` from what stands in front of `t`. */
  lemma {:induction false} AheadWithout(d: seq<nat>, y: nat, t: nat)
    requires t in d && y != t
    ensures t in Without(d, y) && Ahead(Without(d, y), t) == Without(Ahead(d, t), y)
  {
    WithoutMember(d, y, t);
    assert d == [d[0]] + d[1..];
    if d[0] == t {
      IndexUnique(Without(d, y), t, 0);
    } else {
      AheadWithout(d[1..], y, t);
      AheadCons(d[0], d[1..], t);
      assert Ahead(d, t)[1..] == Ahead(d[1..], t);
      if d[0] != y {
        AheadCons(d[0], Without(d[1..], y), t);
      }
    }
  }

  lemma {:induction false} SinceStep(before: seq<nat>, last: nat, t: nat, x: nat)
    requires t in before && last != t
    ensures x in SinceLastUse(before + [last], t) <==> x == last || x in SinceLastUse(before, t)
  {
    var refs, l := before + [last], LastUse(before, t);
    assert refs[..|refs|-1] == before;
    assert refs[l+1..] == before[l+1..] + [last];
  }

  lemma {:induction false} AheadStep(d: seq<nat>, last: nat, t: nat, x: nat)
    requires t in d && last != t
    ensures t in Without(d, last)
    ensures x in Ahead([last] + Without(d, last), t) <==> x == last || x in Ahead(d, t)
  {
    AheadWithout(d, last, t);
    AheadCons(last, Without(d, last), t);
    WithoutMember(Ahead(d, t), last, x);
  }

  /** The tags in front of `t` in the recency list are those referenced since its last use. */
  lemma {:induction false} AheadInRecency(refs: seq<nat>, t: nat, x: nat)
    requires t in refs
    ensures t in Recency(refs)
    ensures x in Ahead(Recency(refs), t) <==> x in SinceLastUse(refs, t)
  {
    var last, before := refs[|refs|-1], refs[..|refs|-1];
    RecencyIsDistinctHistory(refs, t);
    if last == t {
      IndexUnique(Recency(refs), t, 0);
    } else {
      assert refs == before + [last];
      AheadInRecency(before, t, x);
      AheadStep(Recency(before), last, t, x);
      SinceStep(before, last, t, x);
    }
  }

  lemma {:induction false} DistinctCard(s: seq<nat>)
    requires Distinct(s)
    ensures |Elems(s)| == |s|
  {
    if s != [] {
      var rest := s[1..];
      DistinctCard(rest);
      assert s == [s[0]] + rest;
      assert s[0] !in rest;
      assert Elems(s) == {s[0]} + Elems(rest);
    }
  }

  lemma {:induction false} UsedTagHits(refs: seq<nat>, assoc: nat, t: nat)
    requires t in refs
    ensures t in Resident(refs, assoc) <==> |SinceLastUse(refs, t)| < assoc
  {
    var d, held := Recency(refs), Resident(refs, assoc);
    RecencyIsDistinctHistory(refs, t);
    forall x ensures x in Ahead(d, t) <==> x in SinceLastUse(refs, t) {
      AheadInRecency(refs, t, x);
    }
    var i := IndexOf(d, t);
    assert Elems(d[..i]) == SinceLastUse(refs, t);
    DistinctCard(d[..i]);
    if i < assoc {
      assert held[i] == t;
    } else {
      assert forall k :: 0 <= k < assoc ==> held[k] == d[..i][k];
    }
  }

  lemma {:induction false} UnusedTagHits(refs: seq<nat>, assoc: nat, t: nat)
    requires t !in refs
    ensures t in Resident(refs, assoc) <==> t == 0 && |Elems(refs)| < assoc
  {
    var d, held := Recency(refs), Resident(refs, assoc);
    forall x ensures x in d <==> x in refs { RecencyIsDistinctHistory(refs, x); }
    assert Elems(d) == Elems(refs);
    RecencyIsDistinctHistory(refs, t);
    DistinctCard(d);
    if t == 0 && |d| < assoc {
      assert held[|d|] == 0;
    }
  }

  /** Exactly when a reference hits.  A tag used before hits if and only if fewer than
      `assoc` other tags were used since; an unused tag hits only if it is 0 and the set
      still has padding. */
  lemma {:induction false} HitIffRecentlyUsed(refs: seq<nat>, assoc: nat, t: nat)
    ensures t in Resident(refs, assoc) <==>
              if t in refs then |SinceLastUse(refs, t)| < assoc
              else t == 0 && |Elems(refs)| < assoc
  {
    if t in refs {
      UsedTagHits(refs, assoc, t);
    } else {
      UnusedTagHits(refs, assoc, t);
    }
  }

  // ---------------------------------------------------------------- stack inclusion

  /** The smaller set is always a prefix of the larger one. */
  lemma {:induction false} ResidentPrefix(refs: seq<nat>, a: nat, b: nat)
    requires a <= b
    ensures Resident(refs, a) == Resident(refs, b)[..a]
  {
  }

  // ---------------------------------------------------------------- staying in the set

  /** Tag `t` has been held from just after reference `i` until now. */
  predicate HeldSince(refs: seq<nat>, i: nat, t: nat, assoc: nat)
  {
    forall j :: i < j <= |refs| ==> t in Resident(refs[..j], assoc)
  }

  lemma {:induction false} HeldStep(refs: seq<nat>, last: nat, i: nat, t: nat, assoc: nat)
    requires i < |refs|
    ensures HeldSince(refs + [last], i, t, assoc) <==>
            HeldSince(refs, i, t, assoc) && t in Resident(refs + [last], assoc)
  {
    var more := refs + [last];
    assert more[..|more|] == more;
    assert forall j :: 0 <= j <= |refs| ==> more[..j] == refs[..j];
    if HeldSince(more, i, t, assoc) {
      forall j | i < j <= |refs| ensures t in Resident(refs[..j], assoc) {
        assert t in Resident(more[..j], assoc);
      }
    }
  }
}
