/** Callgrind's quicksort of cost centres for a dump: a three-way partition that collects
    elements equal to the pivot at both ends and then swaps them into the middle, with
    insertion sort below seven elements.  The functions here follow the code's steps on
    sequences; `QSortArray` holds the same steps on the array. */
module QSort {

  /** Comparison result as in C: negative, zero or positive. */
  type Cmp<!T> = (T, T) -> int

  function Swap<T>(x: seq<T>, i: nat, j: nat): (r: seq<T>)
    requires i < |x| && j < |x|
    ensures |r| == |x|
    ensures forall k :: 0 <= k < |x| && k != i && k != j ==> r[k] == x[k]
    ensures r[i] == x[j] && r[j] == x[i]
  {
    x[i := x[j]][j := x[i]]
  }

  // ------------------------------------------------------------------ insertion sort

  function Sink<T>(cmp: Cmp<T>, x: seq<T>, k: nat): (r: seq<T>)
    requires k < |x|
    ensures |r| == |x|
    decreases k
  {
    if k > 0 && cmp(x[k-1], x[k]) > 0 then Sink(cmp, Swap(x, k, k - 1), k - 1) else x
  }

  function InsertFrom<T>(cmp: Cmp<T>, x: seq<T>, k: nat): (r: seq<T>)
    ensures |r| == |x|
    decreases |x| - k
  {
    if k < |x| then InsertFrom(cmp, Sink(cmp, x, k), k + 1) else x
  }

  // ------------------------------------------------------------------ choice of the pivot

  function Med3<T>(cmp: Cmp<T>, x: seq<T>, a: nat, b: nat, c: nat): (m: nat)
    requires a < |x| && b < |x| && c < |x|
    ensures m == a || m == b || m == c
  {
    if cmp(x[a], x[b]) < 0 then
      if cmp(x[b], x[c]) < 0 then b else if cmp(x[a], x[c]) < 0 then c else a
    else
      if cmp(x[b], x[c]) > 0 then b else if cmp(x[a], x[c]) > 0 then c else a
  }

  function PivotIndex<T>(cmp: Cmp<T>, x: seq<T>): (m: nat)
    requires |x| >= 7
    ensures m < |x|
  {
    var n := |x|;
    if n == 7 then n / 2
    else if n <= 40 then Med3(cmp, x, 0, n / 2, n - 1)
    else
      var s := n / 8;
      var l := Med3(cmp, x, 0, s, 2 * s);
      var m := Med3(cmp, x, n / 2 - s, n / 2, n / 2 + s);
      var r := Med3(cmp, x, n - 1 - 2 * s, n - 1 - s, n - 1);
      Med3(cmp, x, l, m, r)
  }

  /** `b` lies between `a` and `c`. */
  predicate Between<T>(cmp: Cmp<T>, a: T, b: T, c: T)
  {
    (Le(cmp, a, b) && Le(cmp, b, c)) || (Le(cmp, c, b) && Le(cmp, b, a))
  }

  predicate Median<T>(cmp: Cmp<T>, x: seq<T>, a: nat, b: nat, c: nat, m: nat)
    requires a < |x| && b < |x| && c < |x|
  {
    (m == a && Between(cmp, x[b], x[a], x[c])) || (m == b && Between(cmp, x[a], x[b], x[c])) ||
    (m == c && Between(cmp, x[a], x[c], x[b]))
  }

  /** The medians of three elements each at the start, in the middle and at the end. */
  predicate Outer<T>(cmp: Cmp<T>, x: seq<T>, l: nat, k: nat, r: nat)
    requires |x| > 40
  {
    var n := |x|;
    Median(cmp, x, 0, n / 8, n / 8 * 2, l) && Median(cmp, x, n / 2 - n / 8, n / 2, n / 2 + n / 8, k) &&
    Median(cmp, x, n - 1 - n / 8 * 2, n - 1 - n / 8, n - 1, r)
  }

  lemma {:induction false} Med3IsMedian<T(!new)>(cmp: Cmp<T>, x: seq<T>, a: nat, b: nat, c: nat)
    requires Ordering(cmp) && a < |x| && b < |x| && c < |x|
    ensures Median(cmp, x, a, b, c, Med3(cmp, x, a, b, c))
  {
  }

  /** The pivot is the median of the first, middle and last element, and of long stretches the
      median of the medians of three elements each at the start, in the middle and at the end. */
  lemma {:induction false} PivotIsMedian<T(!new)>(cmp: Cmp<T>, x: seq<T>)
    requires Ordering(cmp) && |x| > 7
    ensures var n, m := |x|, PivotIndex(cmp, x);
            if n <= 40 then Median(cmp, x, 0, n / 2, n - 1, m)
            else
              exists l: nat, k: nat, r: nat :: l < n && k < n && r < n && Median(cmp, x, l, k, r, m) && Outer(cmp, x, l, k, r)
  {
    hide Median;
    var n := |x|;
    if n <= 40 {
      Med3IsMedian(cmp, x, 0, n / 2, n - 1);
    } else {
      var s := n / 8;
      var l, k := Med3(cmp, x, 0, s, 2 * s), Med3(cmp, x, n / 2 - s, n / 2, n / 2 + s);
      var r := Med3(cmp, x, n - 1 - 2 * s, n - 1 - s, n - 1);
      Med3IsMedian(cmp, x, 0, s, 2 * s);
      Med3IsMedian(cmp, x, n / 2 - s, n / 2, n / 2 + s);
      Med3IsMedian(cmp, x, n - 1 - 2 * s, n - 1 - s, n - 1);
      Med3IsMedian(cmp, x, l, k, r);
      assert Outer(cmp, x, l, k, r);
    }
  }

  // ------------------------------------------------------------------ partition

  /** The four moving indices: equal to the pivot below `pa` and above `pd`, less from `pa`
      to `pb`, greater from `pc` to `pd`, unseen from `pb` to `pc`. */
  datatype Scan<T> = Scan(x: seq<T>, pa: int, pb: int, pc: int, pd: int)
  {
    predicate InRange()
    {
      0 <= pa <= pb <= pc + 1 <= pd + 1 <= |x|
    }
  }

  ghost predicate Regions<T>(cmp: Cmp<T>, v: T, s: Scan<T>)
  {
    s.InRange() &&
    (forall k :: 0 <= k < s.pa ==> cmp(s.x[k], v) == 0) &&
    (forall k :: s.pa <= k < s.pb ==> cmp(s.x[k], v) < 0) &&
    (forall k :: s.pc < k <= s.pd ==> cmp(s.x[k], v) > 0) &&
    (forall k :: s.pd < k < |s.x| ==> cmp(s.x[k], v) == 0)
  }

  /** One step up: an element equal to the pivot goes to the start. */
  function Up<T>(cmp: Cmp<T>, v: T, s: Scan<T>): (r: Scan<T>)
    requires s.InRange() && s.pb <= s.pc
    ensures r.InRange() && |r.x| == |s.x| && r.pb == s.pb + 1 && r.pc == s.pc && r.pd == s.pd
  {
    if cmp(s.x[s.pb], v) == 0 then Scan(Swap(s.x, s.pa, s.pb), s.pa + 1, s.pb + 1, s.pc, s.pd)
    else s.(pb := s.pb + 1)
  }

  /** One step down: an element equal to the pivot goes to the end. */
  function Down<T>(cmp: Cmp<T>, v: T, s: Scan<T>): (r: Scan<T>)
    requires s.InRange() && s.pb <= s.pc
    ensures r.InRange() && |r.x| == |s.x| && r.pb == s.pb && r.pc == s.pc - 1 && r.pa == s.pa
    ensures s.pb < s.pc ==> r.x[s.pb] == s.x[s.pb]
  {
    if cmp(s.x[s.pc], v) == 0 then Scan(Swap(s.x, s.pc, s.pd), s.pa, s.pb, s.pc - 1, s.pd - 1)
    else s.(pc := s.pc - 1)
  }

  function ScanUp<T>(cmp: Cmp<T>, v: T, s: Scan<T>): (r: Scan<T>)
    requires s.InRange()
    ensures r.InRange() && |r.x| == |s.x|
    ensures s.pb <= r.pb && r.pc == s.pc && r.pd == s.pd
    ensures r.pb <= r.pc ==> cmp(r.x[r.pb], v) > 0
    decreases s.pc + 1 - s.pb
  {
    if s.pb <= s.pc && cmp(s.x[s.pb], v) <= 0 then ScanUp(cmp, v, Up(cmp, v, s)) else s
  }

  function ScanDown<T>(cmp: Cmp<T>, v: T, s: Scan<T>): (r: Scan<T>)
    requires s.InRange()
    ensures r.InRange() && |r.x| == |s.x|
    ensures r.pa == s.pa && r.pb == s.pb && r.pc <= s.pc
    ensures r.pb <= r.pc ==> cmp(r.x[r.pc], v) < 0
    ensures s.pb <= s.pc && cmp(s.x[s.pb], v) > 0 ==> r.pb > r.pc || (r.pb < r.pc && r.x[r.pb] == s.x[s.pb])
    decreases s.pc + 1 - s.pb
  {
    if s.pb <= s.pc && cmp(s.x[s.pc], v) >= 0 then ScanDown(cmp, v, Down(cmp, v, s)) else s
  }

  /** Both scans: they meet, or stop at a greater and a lesser element. */
  function Scanned<T>(cmp: Cmp<T>, v: T, s: Scan<T>): (u: Scan<T>)
    requires s.InRange()
    ensures u.InRange() && |u.x| == |s.x|
    ensures u.pc - u.pb <= s.pc - s.pb
    ensures u.pb <= u.pc ==> u.pb < u.pc && cmp(u.x[u.pb], v) > 0 && cmp(u.x[u.pc], v) < 0
  {
    ScanDown(cmp, v, ScanUp(cmp, v, s))
  }

  function Exchanged<T>(u: Scan<T>): (r: Scan<T>)
    requires u.InRange() && u.pb < u.pc
    ensures r.InRange() && r.pc - r.pb < u.pc - u.pb
    ensures |r.x| == |u.x|
  {
    Scan(Swap(u.x, u.pb, u.pc), u.pa, u.pb + 1, u.pc - 1, u.pd)
  }

  function Partition<T>(cmp: Cmp<T>, v: T, s: Scan<T>): (r: Scan<T>)
    requires s.InRange()
    ensures r.InRange() && r.pb == r.pc + 1 && |r.x| == |s.x|
    decreases s.pc + 1 - s.pb
  {
    var u := Scanned(cmp, v, s);
    if u.pb > u.pc then u else Partition(cmp, v, Exchanged(u))
  }

  /** Swap `count` elements starting at `i` with those starting at `j`, one by one. */
  function SwapRuns<T>(x: seq<T>, i: nat, j: nat, count: nat): (r: seq<T>)
    requires i + count <= |x| && j + count <= |x|
    ensures |r| == |x|
    decreases count
  {
    if count == 0 then x else SwapRuns(Swap(x, i, j), i + 1, j + 1, count - 1)
  }

  /** Number of elements found less and greater than the pivot. */
  function Less<T>(p: Scan<T>): (n: nat)
    requires p.InRange()
  {
    p.pb - p.pa
  }

  function Greater<T>(p: Scan<T>): (n: nat)
    requires p.InRange() && p.pb == p.pc + 1
  {
    p.pd + 1 - p.pb
  }

  /** Swap both runs of pivot-equals into the middle. */
  function Arrange<T>(p: Scan<T>): (r: seq<T>)
    requires p.InRange() && p.pb == p.pc + 1
    ensures |r| == |p.x|
  {
    var left := SwapRuns(p.x, 0, p.pb - p.pa, p.pa);
    var ends := |p.x| - 1 - p.pd;
    SwapRuns(left, p.pb, |p.x| - ends, ends)
  }

  function Parted<T>(cmp: Cmp<T>, x: seq<T>): (p: Scan<T>)
    requires |x| >= 7
    ensures p.InRange() && p.pb == p.pc + 1 && |p.x| == |x|
  {
    Partition(cmp, x[PivotIndex(cmp, x)], Scan(x, 0, 0, |x| - 1, |x| - 1))
  }

  // ------------------------------------------------------------------ partition is correct

  lemma {:induction false} EqualToStart<T>(cmp: Cmp<T>, v: T, s: Scan<T>)
    requires Regions(cmp, v, s) && s.pb <= s.pc && cmp(s.x[s.pb], v) == 0
    ensures Regions(cmp, v, Up(cmp, v, s))
  {
  }

  lemma {:induction false} EqualToEnd<T>(cmp: Cmp<T>, v: T, s: Scan<T>)
    requires Regions(cmp, v, s) && s.pb <= s.pc && cmp(s.x[s.pc], v) == 0
    ensures Regions(cmp, v, Down(cmp, v, s))
  {
    var y := Swap(s.x, s.pc, s.pd);
    assert forall k :: s.pc <= k < s.pd ==> cmp(y[k], v) > 0;
  }

  lemma {:induction false} Exchange<T>(cmp: Cmp<T>, v: T, s: Scan<T>)
    requires Regions(cmp, v, s) && s.pb < s.pc && cmp(s.x[s.pb], v) > 0 && cmp(s.x[s.pc], v) < 0
    ensures Regions(cmp, v, Exchanged(s))
  {
  }

  lemma {:induction false} ScanUpRegions<T>(cmp: Cmp<T>, v: T, s: Scan<T>)
    requires Regions(cmp, v, s)
    ensures Regions(cmp, v, ScanUp(cmp, v, s))
    decreases s.pc + 1 - s.pb
  {
    if s.pb <= s.pc && cmp(s.x[s.pb], v) <= 0 {
      if cmp(s.x[s.pb], v) == 0 {
        EqualToStart(cmp, v, s);
      }
      ScanUpRegions(cmp, v, Up(cmp, v, s));
    }
  }

  lemma {:induction false} ScanDownRegions<T>(cmp: Cmp<T>, v: T, s: Scan<T>)
    requires Regions(cmp, v, s)
    ensures Regions(cmp, v, ScanDown(cmp, v, s))
    decreases s.pc + 1 - s.pb
  {
    if s.pb <= s.pc && cmp(s.x[s.pc], v) >= 0 {
      if cmp(s.x[s.pc], v) == 0 {
        EqualToEnd(cmp, v, s);
      }
      ScanDownRegions(cmp, v, Down(cmp, v, s));
    }
  }

  lemma {:induction false} ScannedRegions<T>(cmp: Cmp<T>, v: T, s: Scan<T>)
    requires Regions(cmp, v, s)
    ensures Regions(cmp, v, Scanned(cmp, v, s))
  {
    ScanUpRegions(cmp, v, s);
    ScanDownRegions(cmp, v, ScanUp(cmp, v, s));
  }

  lemma {:induction false} PartitionRegions<T>(cmp: Cmp<T>, v: T, s: Scan<T>)
    requires Regions(cmp, v, s)
    ensures Regions(cmp, v, Partition(cmp, v, s))
    decreases s.pc + 1 - s.pb
  {
    ScannedRegions(cmp, v, s);
    var u := Scanned(cmp, v, s);
    if u.pb <= u.pc {
      Exchange(cmp, v, u);
      PartitionRegions(cmp, v, Exchanged(u));
    }
  }

  // ------------------------------------------------------------------ the sort

  /** Needed for termination: an element compares equal to itself. */
  ghost predicate Reflexive<T(!new)>(cmp: Cmp<T>)
  {
    forall t :: cmp(t, t) == 0
  }

  predicate Le<T>(cmp: Cmp<T>, s: T, t: T)
  {
    cmp(s, t) <= 0
  }

  /** A comparison that orders all elements, possibly with ties. */
  ghost predicate Ordering<T(!new)>(cmp: Cmp<T>)
  {
    (forall s, t {:trigger Le(cmp, s, t)} :: Le(cmp, s, t) <==> cmp(t, s) >= 0) &&
    (forall s, t, u {:trigger Le(cmp, s, t), Le(cmp, t, u)} :: Le(cmp, s, t) && Le(cmp, t, u) ==> Le(cmp, s, u))
  }

  ghost predicate Sorted<T>(cmp: Cmp<T>, x: seq<T>)
  {
    forall i, j :: 0 <= i < j < |x| ==> Le(cmp, x[i], x[j])
  }

  ghost predicate SortedTo<T>(cmp: Cmp<T>, x: seq<T>, k: nat)
  {
    k <= |x| && forall i, j :: 0 <= i < j < k ==> Le(cmp, x[i], x[j])
  }

  lemma {:induction false} PartedRegions<T>(cmp: Cmp<T>, x: seq<T>)
    requires |x| >= 7
    ensures Regions(cmp, x[PivotIndex(cmp, x)], Parted(cmp, x))
  {
    PartitionRegions(cmp, x[PivotIndex(cmp, x)], Scan(x, 0, 0, |x| - 1, |x| - 1));
  }

  // ------------------------------------------------------------------ every step permutes

  lemma {:induction false} SwapPermutes<T>(x: seq<T>, i: nat, j: nat)
    requires i < |x| && j < |x|
    ensures multiset(Swap(x, i, j)) == multiset(x)
  {
  }

  lemma {:induction false} SinkPermutes<T>(cmp: Cmp<T>, x: seq<T>, k: nat)
    requires k < |x|
    ensures multiset(Sink(cmp, x, k)) == multiset(x)
    decreases k
  {
    if k > 0 && cmp(x[k-1], x[k]) > 0 {
      SwapPermutes(x, k, k - 1);
      SinkPermutes(cmp, Swap(x, k, k - 1), k - 1);
    }
  }

  lemma {:induction false} InsertFromPermutes<T>(cmp: Cmp<T>, x: seq<T>, k: nat)
    ensures multiset(InsertFrom(cmp, x, k)) == multiset(x)
    decreases |x| - k
  {
    if k < |x| {
      SinkPermutes(cmp, x, k);
      InsertFromPermutes(cmp, Sink(cmp, x, k), k + 1);
    }
  }

  lemma {:induction false} ScanUpPermutes<T>(cmp: Cmp<T>, v: T, s: Scan<T>)
    requires s.InRange()
    ensures multiset(ScanUp(cmp, v, s).x) == multiset(s.x)
    decreases s.pc + 1 - s.pb
  {
    if s.pb <= s.pc && cmp(s.x[s.pb], v) <= 0 {
      SwapPermutes(s.x, s.pa, s.pb);
      ScanUpPermutes(cmp, v, Up(cmp, v, s));
    }
  }

  lemma {:induction false} ScanDownPermutes<T>(cmp: Cmp<T>, v: T, s: Scan<T>)
    requires s.InRange()
    ensures multiset(ScanDown(cmp, v, s).x) == multiset(s.x)
    decreases s.pc + 1 - s.pb
  {
    if s.pb <= s.pc && cmp(s.x[s.pc], v) >= 0 {
      SwapPermutes(s.x, s.pc, s.pd);
      ScanDownPermutes(cmp, v, Down(cmp, v, s));
    }
  }

  lemma {:induction false} PartitionPermutes<T>(cmp: Cmp<T>, v: T, s: Scan<T>)
    requires s.InRange()
    ensures multiset(Partition(cmp, v, s).x) == multiset(s.x)
    decreases s.pc + 1 - s.pb
  {
    ScanUpPermutes(cmp, v, s);
    ScanDownPermutes(cmp, v, ScanUp(cmp, v, s));
    var u := Scanned(cmp, v, s);
    if u.pb <= u.pc {
      SwapPermutes(u.x, u.pb, u.pc);
      PartitionPermutes(cmp, v, Exchanged(u));
    }
  }

  lemma {:induction false} SwapRunsPermutes<T>(x: seq<T>, i: nat, j: nat, count: nat)
    requires i + count <= |x| && j + count <= |x|
    ensures multiset(SwapRuns(x, i, j, count)) == multiset(x)
    decreases count
  {
    if count > 0 {
      SwapPermutes(x, i, j);
      SwapRunsPermutes(Swap(x, i, j), i + 1, j + 1, count - 1);
    }
  }

  lemma {:induction false} ArrangePermutes<T>(p: Scan<T>)
    requires p.InRange() && p.pb == p.pc + 1
    ensures multiset(Arrange(p)) == multiset(p.x)
  {
    hide SwapRuns;
    var left, ends := SwapRuns(p.x, 0, p.pb - p.pa, p.pa), |p.x| - 1 - p.pd;
    SwapRunsPermutes(p.x, 0, p.pb - p.pa, p.pa);
    SwapRunsPermutes(left, p.pb, |p.x| - ends, ends);
  }

  lemma {:induction false} ArrangedPermutes<T>(cmp: Cmp<T>, x: seq<T>)
    requires |x| >= 7
    ensures multiset(Parted(cmp, x).x) == multiset(x)
    ensures multiset(Arrange(Parted(cmp, x))) == multiset(x)
  {
    PartitionPermutes(cmp, x[PivotIndex(cmp, x)], Scan(x, 0, 0, |x| - 1, |x| - 1));
    ArrangePermutes(Parted(cmp, x));
  }

  lemma {:induction false} MemberOfPermutation<T>(x: seq<T>, y: seq<T>, t: T)
    requires multiset(x) == multiset(y) && t in x
    ensures t in y
  {
    assert t in multiset(x);
  }

  /** The pivot itself is in neither part, so both parts are shorter. */
  lemma {:induction false} PartsShorter<T(!new)>(cmp: Cmp<T>, x: seq<T>)
    requires |x| >= 7 && Reflexive(cmp)
    ensures var p := Parted(cmp, x); Less(p) + Greater(p) < |x|
  {
    var v, p := x[PivotIndex(cmp, x)], Parted(cmp, x);
    PartedRegions(cmp, x);
    ArrangedPermutes(cmp, x);
    MemberOfPermutation(x, p.x, v);
    var k :| 0 <= k < |p.x| && p.x[k] == v;
    assert cmp(p.x[k], v) == 0;
  }

  datatype Parts<T> = Parts(front: seq<T>, middle: seq<T>, back: seq<T>)

  /** One level of the sort: the two stretches sorted recursively and what lies between. */
  function Divide<T(!new)>(cmp: Cmp<T>, x: seq<T>): (d: Parts<T>)
    requires |x| >= 7 && Reflexive(cmp)
    ensures |d.front| < |x| && |d.back| < |x| && |d.front| + |d.middle| + |d.back| == |x|
  {
    PartsShorter(cmp, x);
    var p := Parted(cmp, x);
    var y, l, r := Arrange(p), Less(p), |x| - Greater(p);
    Parts(y[..l], y[l..r], y[r..])
  }

  function QuickSort<T(!new)>(cmp: Cmp<T>, x: seq<T>): (r: seq<T>)
    requires Reflexive(cmp)
    ensures |r| == |x|
    decreases |x|
  {
    if |x| < 7 then InsertFrom(cmp, x, 1)
    else
      var d := Divide(cmp, x);
      QuickSort(cmp, d.front) + d.middle + QuickSort(cmp, d.back)
  }

  lemma {:induction false} DividePermutes<T(!new)>(cmp: Cmp<T>, x: seq<T>)
    requires |x| >= 7 && Reflexive(cmp)
    ensures var d := Divide(cmp, x); multiset(d.front) + multiset(d.middle) + multiset(d.back) == multiset(x)
  {
    ArrangedPermutes(cmp, x);
    var p := Parted(cmp, x);
    var y, l, r := Arrange(p), Less(p), |x| - Greater(p);
    assert l <= r;
    assert y == y[..l] + y[l..r] + y[r..];
  }

  /** The result is a permutation of the input, whatever the comparison says of different
      elements. */
  lemma {:induction false} QuickSortPermutes<T(!new)>(cmp: Cmp<T>, x: seq<T>)
    requires Reflexive(cmp)
    ensures multiset(QuickSort(cmp, x)) == multiset(x)
    decreases |x|
  {
    if |x| < 7 {
      InsertFromPermutes(cmp, x, 1);
    } else {
      DividePermutes(cmp, x);
      var d := Divide(cmp, x);
      QuickSortPermutes(cmp, d.front);
      QuickSortPermutes(cmp, d.back);
    }
  }

  // ------------------------------------------------------------------ insertion sort sorts

  /** `x[..top+1]` is sorted except that the element at `k` may be too far right. */
  ghost predicate Sinking<T>(cmp: Cmp<T>, x: seq<T>, k: nat, top: nat)
  {
    k <= top < |x| &&
    (forall i, j :: 0 <= i < j <= top && i != k && j != k ==> Le(cmp, x[i], x[j])) &&
    (forall j :: k < j <= top ==> Le(cmp, x[k], x[j]))
  }

  lemma {:induction false} SinkStep<T(!new)>(cmp: Cmp<T>, x: seq<T>, k: nat, top: nat)
    requires Ordering(cmp) && Sinking(cmp, x, k, top) && k > 0 && cmp(x[k-1], x[k]) > 0
    ensures Sinking(cmp, Swap(x, k, k - 1), k - 1, top)
  {
    var y := Swap(x, k, k - 1);
    assert Le(cmp, x[k], x[k-1]);
    forall i, j | 0 <= i < j <= top && i != k - 1 && j != k - 1 ensures Le(cmp, y[i], y[j]) {
      assert i != k ==> y[i] == x[i];
      assert j != k ==> y[j] == x[j];
    }
  }

  lemma {:induction false} SinkSorts<T(!new)>(cmp: Cmp<T>, x: seq<T>, k: nat, top: nat)
    requires Ordering(cmp) && Sinking(cmp, x, k, top)
    ensures SortedTo(cmp, Sink(cmp, x, k), top + 1)
    decreases k
  {
    if k > 0 && cmp(x[k-1], x[k]) > 0 {
      SinkStep(cmp, x, k, top);
      SinkSorts(cmp, Swap(x, k, k - 1), k - 1, top);
    } else {
      forall i | 0 <= i < k ensures Le(cmp, x[i], x[k]) {
        assert Le(cmp, x[k-1], x[k]);
        if i < k - 1 { assert Le(cmp, x[i], x[k-1]); }
      }
    }
  }

  lemma {:induction false} InsertFromSorts<T(!new)>(cmp: Cmp<T>, x: seq<T>, k: nat)
    requires Ordering(cmp) && k <= |x| && SortedTo(cmp, x, k)
    ensures Sorted(cmp, InsertFrom(cmp, x, k))
    decreases |x| - k
  {
    if k < |x| {
      SinkSorts(cmp, x, k, k);
      InsertFromSorts(cmp, Sink(cmp, x, k), k + 1);
    }
  }

  // ------------------------------------------------------------------ moving the equal runs

  /** All of `x[lo..hi]` compare to the pivot with the given sign. */
  ghost predicate AllEqual<T>(cmp: Cmp<T>, v: T, x: seq<T>, lo: int, hi: int)
  {
    0 <= lo && hi <= |x| && forall k :: lo <= k < hi ==> cmp(x[k], v) == 0
  }

  ghost predicate AllLess<T>(cmp: Cmp<T>, v: T, x: seq<T>, lo: int, hi: int)
  {
    0 <= lo && hi <= |x| && forall k :: lo <= k < hi ==> cmp(x[k], v) < 0
  }

  ghost predicate AllGreater<T>(cmp: Cmp<T>, v: T, x: seq<T>, lo: int, hi: int)
  {
    0 <= lo && hi <= |x| && forall k :: lo <= k < hi ==> cmp(x[k], v) > 0
  }

  /** Positions outside both runs are left alone. */
  lemma {:induction false} RunsFrame<T>(x: seq<T>, i: nat, j: nat, count: nat, k: nat)
    requires i + count <= |x| && j + count <= |x| && k < |x|
    requires !(i <= k < i + count) && !(j <= k < j + count)
    ensures SwapRuns(x, i, j, count)[k] == x[k]
    decreases count
  {
    if count > 0 {
      RunsFrame(Swap(x, i, j), i + 1, j + 1, count - 1, k);
    }
  }

  lemma {:induction false} SelfRuns<T>(x: seq<T>, i: nat, count: nat)
    requires i + count <= |x|
    ensures SwapRuns(x, i, i, count) == x
    decreases count
  {
    if count > 0 {
      assert Swap(x, i, i) == x;
      SelfRuns(x, i + 1, count - 1);
    }
  }

  /** The class pattern after `i` swaps of a left run no longer than the lesser part. */
  ghost predicate Fitting<T>(cmp: Cmp<T>, v: T, x: seq<T>, i: int, s: int, l: int)
  {
    0 <= i <= s <= l && s + l <= |x| &&
    AllLess(cmp, v, x, 0, i) && AllEqual(cmp, v, x, i, s) && AllLess(cmp, v, x, s, l) &&
    AllEqual(cmp, v, x, l, l + i) && AllLess(cmp, v, x, l + i, s + l)
  }

  lemma {:induction false} FitStep<T>(cmp: Cmp<T>, v: T, x: seq<T>, i: int, s: int, l: int)
    requires Fitting(cmp, v, x, i, s, l) && i < s
    ensures Fitting(cmp, v, Swap(x, i, l + i), i + 1, s, l)
  {
  }

  lemma {:induction false} LeftRunFits<T>(cmp: Cmp<T>, v: T, x: seq<T>, i: nat, s: nat, l: nat)
    requires Fitting(cmp, v, x, i, s, l)
    ensures Fitting(cmp, v, SwapRuns(x, i, l + i, s - i), s, s, l)
    decreases s - i
  {
    if i < s {
      FitStep(cmp, v, x, i, s, l);
      LeftRunFits(cmp, v, Swap(x, i, l + i), i + 1, s, l);
    }
  }

  /** The class pattern after `i` swaps of a left run longer than the lesser part. */
  ghost predicate Overlapping<T>(cmp: Cmp<T>, v: T, x: seq<T>, i: int, s: int, l: int)
  {
    0 < l < s && 0 <= i <= s && s + l <= |x| &&
    if i <= s - l then AllEqual(cmp, v, x, 0, s) && AllLess(cmp, v, x, s, s + l)
    else AllEqual(cmp, v, x, 0, s - l) && AllLess(cmp, v, x, s - l, i) &&
         AllEqual(cmp, v, x, i, i + l) && AllLess(cmp, v, x, i + l, s + l)
  }

  lemma {:induction false} OverlapStep<T>(cmp: Cmp<T>, v: T, x: seq<T>, i: int, s: int, l: int)
    requires Overlapping(cmp, v, x, i, s, l) && i < s
    ensures Overlapping(cmp, v, Swap(x, i, l + i), i + 1, s, l)
  {
  }

  /** A longer left run with some lesser elements ends with lesser elements behind equals. */
  lemma {:induction false} LeftRunOverlaps<T>(cmp: Cmp<T>, v: T, x: seq<T>, i: nat, s: nat, l: nat)
    requires Overlapping(cmp, v, x, i, s, l)
    ensures Overlapping(cmp, v, SwapRuns(x, i, l + i, s - i), s, s, l)
    decreases s - i
  {
    if i < s {
      OverlapStep(cmp, v, x, i, s, l);
      LeftRunOverlaps(cmp, v, Swap(x, i, l + i), i + 1, s, l);
    }
  }

  /** The class pattern after `i` swaps of the right run: the `g` greater elements slide up
      past the equal ones. */
  ghost predicate Sliding<T>(cmp: Cmp<T>, v: T, x: seq<T>, m: int, i: int, g: int, s: int)
  {
    0 <= m && 0 <= i <= s && 0 <= g && m + g + s == |x| &&
    AllEqual(cmp, v, x, m, m + i) && AllGreater(cmp, v, x, m + i, m + i + g) && AllEqual(cmp, v, x, m + i + g, |x|)
  }

  lemma {:induction false} SlideStep<T>(cmp: Cmp<T>, v: T, x: seq<T>, m: int, i: int, g: int, s: int)
    requires Sliding(cmp, v, x, m, i, g, s) && i < s
    ensures Sliding(cmp, v, Swap(x, m + i, m + g + i), m, i + 1, g, s)
  {
  }

  /** The right run always reaches the middle. */
  lemma {:induction false} RightRunSlides<T>(cmp: Cmp<T>, v: T, x: seq<T>, m: nat, i: nat, g: nat, s: nat)
    requires Sliding(cmp, v, x, m, i, g, s)
    ensures Sliding(cmp, v, SwapRuns(x, m + i, m + g + i, s - i), m, s, g, s)
    decreases s - i
  {
    if i < s {
      SlideStep(cmp, v, x, m, i, g, s);
      RightRunSlides(cmp, v, Swap(x, m + i, m + g + i), m, i + 1, g, s);
    }
  }

  /** Does the left run of pivot-equals fit into the lesser part? */
  predicate RunFits<T>(p: Scan<T>)
    requires p.InRange()
  {
    !(0 < Less(p) < p.pa)
  }

  /** What the left swaps leave, and that they stay left of the greater part. */
  function LeftArranged<T>(p: Scan<T>): (r: seq<T>)
    requires p.InRange()
    ensures |r| == |p.x|
  {
    SwapRuns(p.x, 0, p.pb - p.pa, p.pa)
  }

  lemma {:induction false} LeftFrame<T>(p: Scan<T>)
    requires p.InRange()
    ensures forall k :: p.pb <= k < |p.x| ==> LeftArranged(p)[k] == p.x[k]
  {
    forall k | p.pb <= k < |p.x| ensures LeftArranged(p)[k] == p.x[k] {
      RunsFrame(p.x, 0, p.pb - p.pa, p.pa, k);
    }
  }

  lemma {:induction false} RightArranged<T>(cmp: Cmp<T>, v: T, p: Scan<T>)
    requires Regions(cmp, v, p) && p.pb == p.pc + 1
    ensures var n := |p.x|;
            AllEqual(cmp, v, Arrange(p), p.pb, n - Greater(p)) && AllGreater(cmp, v, Arrange(p), n - Greater(p), n)
    ensures forall k :: 0 <= k < p.pb ==> Arrange(p)[k] == LeftArranged(p)[k]
  {
    LeftFrame(p);
    var left, ends := LeftArranged(p), |p.x| - 1 - p.pd;
    assert Sliding(cmp, v, left, p.pb, 0, Greater(p), ends);
    RightRunSlides(cmp, v, left, p.pb, 0, Greater(p), ends);
    forall k | 0 <= k < p.pb ensures Arrange(p)[k] == left[k] {
      RunsFrame(left, p.pb, |p.x| - ends, ends, k);
    }
  }

  /** When the run fits: lesser elements first, equal ones in the middle, greater ones last. */
  lemma {:induction false} ArrangeFits<T>(cmp: Cmp<T>, v: T, p: Scan<T>)
    requires Regions(cmp, v, p) && p.pb == p.pc + 1 && RunFits(p)
    ensures var y, l, r := Arrange(p), Less(p), |p.x| - Greater(p);
            AllLess(cmp, v, y, 0, l) && AllEqual(cmp, v, y, l, r) && AllGreater(cmp, v, y, r, |y|)
  {
    RightArranged(cmp, v, p);
    if Less(p) == 0 {
      SelfRuns(p.x, 0, p.pa);
    } else {
      assert Fitting(cmp, v, p.x, 0, p.pa, Less(p));
      LeftRunFits(cmp, v, p.x, 0, p.pa, Less(p));
    }
  }

  /** When it does not: an equal element comes first and a lesser one is left behind in the
      middle, out of reach of both recursive calls. */
  lemma {:induction false} ArrangeOverlaps<T>(cmp: Cmp<T>, v: T, p: Scan<T>)
    requires Regions(cmp, v, p) && p.pb == p.pc + 1 && !RunFits(p)
    ensures var y := Arrange(p);
            cmp(y[0], v) == 0 && Less(p) <= p.pa - 1 < |y| - Greater(p) && cmp(y[p.pa-1], v) < 0
  {
    RightArranged(cmp, v, p);
    assert Overlapping(cmp, v, p.x, 0, p.pa, Less(p));
    LeftRunOverlaps(cmp, v, p.x, 0, p.pa, Less(p));
  }

  // ------------------------------------------------------------------ exactly when the result is sorted

  /** At no level of the recursion does a left run of pivot-equals overrun a non-empty
      lesser part. */
  ghost predicate RunsFit<T(!new)>(cmp: Cmp<T>, x: seq<T>)
    requires Reflexive(cmp)
    decreases |x|
  {
    |x| < 7 ||
    (RunFits(Parted(cmp, x)) && RunsFit(cmp, Divide(cmp, x).front) && RunsFit(cmp, Divide(cmp, x).back))
  }

  lemma {:induction false} DivideClasses<T(!new)>(cmp: Cmp<T>, x: seq<T>)
    requires |x| >= 7 && Reflexive(cmp) && RunFits(Parted(cmp, x))
    ensures var d, v := Divide(cmp, x), x[PivotIndex(cmp, x)];
            (forall t :: t in d.front ==> cmp(t, v) < 0) && (forall t :: t in d.middle ==> cmp(t, v) == 0) &&
            (forall t :: t in d.back ==> cmp(t, v) > 0)
  {
    PartedRegions(cmp, x);
    ArrangeFits(cmp, x[PivotIndex(cmp, x)], Parted(cmp, x));
  }

  lemma {:induction false} AroundPivot<T(!new)>(cmp: Cmp<T>, s: T, t: T, v: T)
    requires Ordering(cmp) && cmp(s, v) <= 0 && cmp(t, v) >= 0
    ensures Le(cmp, s, t)
    ensures cmp(s, v) < 0 ==> !Le(cmp, t, s)
  {
    assert Le(cmp, s, v) && Le(cmp, v, t);
    assert Le(cmp, t, s) ==> Le(cmp, v, s);
  }

  lemma {:induction false} SortedAroundPivot<T(!new)>(cmp: Cmp<T>, r: seq<T>, f: seq<T>, m: seq<T>, b: seq<T>, v: T)
    requires Ordering(cmp) && r == f + m + b
    requires forall t :: t in f ==> cmp(t, v) < 0
    requires forall t :: t in m ==> cmp(t, v) == 0
    requires forall t :: t in b ==> cmp(t, v) > 0
    ensures Sorted(cmp, r) <==> Sorted(cmp, f) && Sorted(cmp, b)
  {
    var n := |f| + |m|;
    assert forall k :: 0 <= k < |f| ==> r[k] == f[k];
    assert forall k :: 0 <= k < |b| ==> r[n+k] == b[k];
    if Sorted(cmp, f) && Sorted(cmp, b) {
      forall i, j | 0 <= i < j < |r| ensures Le(cmp, r[i], r[j]) {
        if j < |f| {
          assert r[i] == f[i] && r[j] == f[j];
        } else if i >= n {
          assert r[i] == b[i-n] && r[j] == b[j-n];
        } else {
          assert r[i] in f || r[i] in m;
          assert r[j] in m || r[j] in b;
          AroundPivot(cmp, r[i], r[j], v);
        }
      }
    }
    if Sorted(cmp, r) {
      forall i, j | 0 <= i < j < |b| ensures Le(cmp, b[i], b[j]) {
        assert Le(cmp, r[n+i], r[n+j]);
      }
    }
  }

  lemma {:induction false} MembersKept<T(!new)>(cmp: Cmp<T>, x: seq<T>)
    requires Reflexive(cmp)
    ensures forall t :: t in QuickSort(cmp, x) <==> t in x
  {
    QuickSortPermutes(cmp, x);
    forall t ensures t in QuickSort(cmp, x) <==> t in x {
      assert t in multiset(QuickSort(cmp, x)) <==> t in multiset(x);
    }
  }

  lemma {:induction false} FitLevel<T(!new)>(cmp: Cmp<T>, x: seq<T>, q: seq<T>, f: seq<T>, b: seq<T>)
    requires Ordering(cmp) && Reflexive(cmp) && |x| >= 7 && RunFits(Parted(cmp, x))
    requires q == QuickSort(cmp, x) && f == QuickSort(cmp, Divide(cmp, x).front)
    requires b == QuickSort(cmp, Divide(cmp, x).back)
    ensures Sorted(cmp, q) <==> Sorted(cmp, f) && Sorted(cmp, b)
  {
    DivideClasses(cmp, x);
    MembersKept(cmp, Divide(cmp, x).front);
    MembersKept(cmp, Divide(cmp, x).back);
    SortedAroundPivot(cmp, q, f, Divide(cmp, x).middle, b, x[PivotIndex(cmp, x)]);
  }

  /** An element equal to the pivot in front of a lesser one in the middle. */
  lemma {:induction false} EqualBeforeLess<T(!new)>(cmp: Cmp<T>, r: seq<T>, f: seq<T>, m: seq<T>, b: seq<T>, v: T, s: T, k: nat)
    requires Ordering(cmp) && r == f + m + b
    requires s in f && cmp(s, v) == 0 && k < |m| && cmp(m[k], v) < 0
    ensures !Sorted(cmp, r)
  {
    var i :| 0 <= i < |f| && f[i] == s;
    assert r[i] == s && r[|f|+k] == m[k];
    AroundPivot(cmp, m[k], s, v);
    assert !Le(cmp, r[i], r[|f|+k]);
  }

  lemma {:induction false} DivideOverrun<T(!new)>(cmp: Cmp<T>, x: seq<T>) returns (k: nat)
    requires Reflexive(cmp) && |x| >= 7 && !RunFits(Parted(cmp, x))
    ensures var d, v := Divide(cmp, x), x[PivotIndex(cmp, x)];
            d.front != [] && cmp(d.front[0], v) == 0 && k < |d.middle| && cmp(d.middle[k], v) < 0
  {
    var p, v := Parted(cmp, x), x[PivotIndex(cmp, x)];
    PartedRegions(cmp, x);
    ArrangeOverlaps(cmp, v, p);
    k := p.pa - 1 - Less(p);
    assert Divide(cmp, x).middle[k] == Arrange(p)[p.pa-1];
  }

  lemma {:induction false} OverrunLevel<T(!new)>(cmp: Cmp<T>, x: seq<T>, q: seq<T>)
    requires Ordering(cmp) && Reflexive(cmp) && |x| >= 7 && !RunFits(Parted(cmp, x))
    requires q == QuickSort(cmp, x)
    ensures !Sorted(cmp, q)
  {
    var k := DivideOverrun(cmp, x);
    var d := Divide(cmp, x);
    MembersKept(cmp, d.front);
    EqualBeforeLess(cmp, q, QuickSort(cmp, d.front), d.middle, QuickSort(cmp, d.back),
                    x[PivotIndex(cmp, x)], d.front[0], k);
  }

  /** For a comparison that is an ordering (ties allowed), the result is sorted if and only
      if no left run of pivot-equals overran the lesser part on the way. */
  lemma {:induction false} SortedIffRunsFit<T(!new)>(cmp: Cmp<T>, x: seq<T>, q: seq<T>)
    requires Ordering(cmp) && Reflexive(cmp) && q == QuickSort(cmp, x)
    ensures Sorted(cmp, q) <==> RunsFit(cmp, x)
    decreases |x|
  {
    if x == [] {
    } else if |x| < 7 {
      InsertFromSorts(cmp, x, 1);
    } else if RunFits(Parted(cmp, x)) {
      var d := Divide(cmp, x);
      var f, b := QuickSort(cmp, d.front), QuickSort(cmp, d.back);
      FitLevel(cmp, x, q, f, b);
      SortedIffRunsFit(cmp, d.front, f);
      SortedIffRunsFit(cmp, d.back, b);
    } else {
      OverrunLevel(cmp, x, q);
    }
  }

  /** No two positions hold elements that compare equal. */
  ghost predicate TieFree<T(!new)>(cmp: Cmp<T>, m: multiset<T>)
  {
    (forall t :: m[t] <= 1) && forall s, t :: s in m && t in m && cmp(s, t) == 0 ==> s == t
  }

  lemma {:induction false} TwiceInMultiset<T>(x: seq<T>, i: nat, j: nat)
    requires i < j < |x| && x[i] == x[j]
    ensures multiset(x)[x[i]] >= 2
  {
    assert x == x[..j] + x[j..];
    assert multiset(x)[x[i]] == multiset(x[..j])[x[i]] + multiset(x[j..])[x[i]];
    assert x[..j][i] in multiset(x[..j]) && x[j..][0] in multiset(x[j..]);
  }

  lemma {:induction false} TieFreeRunFits<T(!new)>(cmp: Cmp<T>, x: seq<T>)
    requires Reflexive(cmp) && |x| >= 7 && TieFree(cmp, multiset(x))
    ensures RunFits(Parted(cmp, x))
  {
    var p, v := Parted(cmp, x), x[PivotIndex(cmp, x)];
    PartedRegions(cmp, x);
    ArrangedPermutes(cmp, x);
    if p.pa >= 2 {
      assert p.x[0] in multiset(p.x) && p.x[1] in multiset(p.x) && v in multiset(x);
      assert p.x[0] == v == p.x[1];
      TwiceInMultiset(p.x, 0, 1);
    }
  }

  /** Without ties the sort always sorts. */
  lemma {:induction false} TieFreeFits<T(!new)>(cmp: Cmp<T>, x: seq<T>)
    requires Reflexive(cmp) && TieFree(cmp, multiset(x))
    ensures RunsFit(cmp, x)
    decreases |x|
  {
    if |x| >= 7 {
      TieFreeRunFits(cmp, x);
      DividePermutes(cmp, x);
      var d := Divide(cmp, x);
      assert multiset(d.front) <= multiset(x) && multiset(d.back) <= multiset(x);
      TieFreeFits(cmp, d.front);
      TieFreeFits(cmp, d.back);
    }
  }

  lemma {:induction false} TieFreeSorts<T(!new)>(cmp: Cmp<T>, x: seq<T>)
    requires Ordering(cmp) && Reflexive(cmp) && TieFree(cmp, multiset(x))
    ensures Sorted(cmp, QuickSort(cmp, x))
  {
    TieFreeFits(cmp, x);
    SortedIffRunsFit(cmp, x, QuickSort(cmp, x));
  }

  // ------------------------------------------------------------------ an input left unsorted

  function Difference(a: int, b: int): int { a - b }

  /** Four pivot-equals in front of a single lesser element. */
  const TIED: seq<int> := [5, 5, 5, 5, 1, 9, 9]

  lemma {:induction false} TiedOverruns(x: seq<int>)
    requires x == TIED
    ensures !RunFits(Parted(Difference, x))
  {
    var c := Difference;
    assert Swap(x, 0, 0) == x && Swap(x, 1, 1) == x && Swap(x, 2, 2) == x && Swap(x, 3, 3) == x;
    assert ScanUp(c, 5, Scan(x, 4, 5, 6, 6)) == Scan(x, 4, 5, 6, 6);
    assert ScanUp(c, 5, Scan(x, 3, 3, 6, 6)) == Scan(x, 4, 5, 6, 6);
    assert ScanUp(c, 5, Scan(x, 1, 1, 6, 6)) == Scan(x, 4, 5, 6, 6);
    assert ScanUp(c, 5, Scan(x, 0, 0, 6, 6)) == Scan(x, 4, 5, 6, 6);
    assert ScanDown(c, 5, Scan(x, 4, 5, 4, 6)) == Scan(x, 4, 5, 4, 6);
    assert ScanDown(c, 5, Scan(x, 4, 5, 6, 6)) == Scan(x, 4, 5, 4, 6);
  }

  /** With ties the sort can fail to sort. */
  lemma {:induction false} TiesLeftUnsorted(x: seq<int>)
    requires x == TIED
    ensures Ordering(Difference) && Reflexive(Difference)
    ensures !Sorted(Difference, QuickSort(Difference, x))
  {
    TiedOverruns(x);
    OverrunLevel(Difference, x, QuickSort(Difference, x));
  }
}
