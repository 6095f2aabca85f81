/** Callgrind's quicksort on the array of cost centres.  Each method works in place on the
    stretch of `n` elements starting at `lo` and does there what its function in `QSort`
    says. */
module QSortArray {
  import opened QSort

  method SwapAt<T>(a: array<T>, lo: nat, n: nat, i: nat, j: nat)
    requires lo + n <= a.Length && i < n && j < n
    modifies a
    ensures a[lo..lo+n] == Swap(old(a[lo..lo+n]), i, j)
    ensures forall k :: 0 <= k < a.Length && !(lo <= k < lo + n) ==> a[k] == old(a[k])
  {
    a[lo+i], a[lo+j] := a[lo+j], a[lo+i];
  }

  /** Insertion sort on a small stretch. */
  method InsertionSort<T>(a: array<T>, lo: nat, n: nat, cmp: Cmp<T>)
    requires lo + n <= a.Length
    modifies a
    ensures a[lo..lo+n] == InsertFrom(cmp, old(a[lo..lo+n]), 1)
    ensures forall k :: 0 <= k < a.Length && !(lo <= k < lo + n) ==> a[k] == old(a[k])
  {
    var pm := 1;
    while pm < n
      invariant 1 <= pm
      invariant InsertFrom(cmp, a[lo..lo+n], pm) == InsertFrom(cmp, old(a[lo..lo+n]), 1)
      invariant forall k :: 0 <= k < a.Length && !(lo <= k < lo + n) ==> a[k] == old(a[k])
    {
      var pl := pm;
      while pl > 0 && cmp(a[lo+pl-1], a[lo+pl]) > 0
        invariant 0 <= pl <= pm
        invariant InsertFrom(cmp, Sink(cmp, a[lo..lo+n], pl), pm + 1) == InsertFrom(cmp, old(a[lo..lo+n]), 1)
        invariant forall k :: 0 <= k < a.Length && !(lo <= k < lo + n) ==> a[k] == old(a[k])
      {
        SwapAt(a, lo, n, pl, pl - 1);
        pl := pl - 1;
      }
      pm := pm + 1;
    }
  }

  /** Move up over elements not greater than the pivot, collecting equals at the start. */
  method ScanUpAt<T>(a: array<T>, lo: nat, n: nat, cmp: Cmp<T>, v: T, pa0: nat, pb0: nat, pc: int, ghost pd: int)
    returns (pa: nat, pb: nat)
    requires lo + n <= a.Length && Scan(a[lo..lo+n], pa0, pb0, pc, pd).InRange()
    modifies a
    ensures Scan(a[lo..lo+n], pa, pb, pc, pd) == ScanUp(cmp, v, Scan(old(a[lo..lo+n]), pa0, pb0, pc, pd))
    ensures forall k :: 0 <= k < a.Length && !(lo <= k < lo + n) ==> a[k] == old(a[k])
  {
    hide ScanUp;
    pa, pb := pa0, pb0;
    ghost var p := Scan(a[lo..lo+n], pa, pb, pc, pd);
    ghost var goal := ScanUp(cmp, v, p);
    while pb <= pc && cmp(a[lo+pb], v) <= 0
      invariant p == Scan(a[lo..lo+n], pa, pb, pc, pd) && p.InRange() && ScanUp(cmp, v, p) == goal
      invariant forall k :: 0 <= k < a.Length && !(lo <= k < lo + n) ==> a[k] == old(a[k])
    {
      assert a[lo+pb] == p.x[pb];
      ScanUpNext(cmp, v, p);
      p := Up(cmp, v, p);
      if cmp(a[lo+pb], v) == 0 {
        SwapAt(a, lo, n, pa, pb);
        pa := pa + 1;
      }
      pb := pb + 1;
    }
    ScanUpNext(cmp, v, p);
  }

  lemma {:induction false} ScanUpNext<T>(cmp: Cmp<T>, v: T, p: Scan<T>)
    requires p.InRange()
    ensures ScanUp(cmp, v, p) ==
            if p.pb <= p.pc && cmp(p.x[p.pb], v) <= 0 then ScanUp(cmp, v, Up(cmp, v, p)) else p
  {
  }

  /** Move down over elements not less than the pivot, collecting equals at the end. */
  method ScanDownAt<T>(a: array<T>, lo: nat, n: nat, cmp: Cmp<T>, v: T, ghost pa: nat, pb: nat, pc0: int, pd0: int)
    returns (pc: int, pd: int)
    requires lo + n <= a.Length && Scan(a[lo..lo+n], pa, pb, pc0, pd0).InRange()
    modifies a
    ensures Scan(a[lo..lo+n], pa, pb, pc, pd) == ScanDown(cmp, v, Scan(old(a[lo..lo+n]), pa, pb, pc0, pd0))
    ensures forall k :: 0 <= k < a.Length && !(lo <= k < lo + n) ==> a[k] == old(a[k])
  {
    hide ScanDown;
    pc, pd := pc0, pd0;
    ghost var p := Scan(a[lo..lo+n], pa, pb, pc, pd);
    ghost var goal := ScanDown(cmp, v, p);
    while pb <= pc && cmp(a[lo+pc], v) >= 0
      invariant p == Scan(a[lo..lo+n], pa, pb, pc, pd) && p.InRange() && ScanDown(cmp, v, p) == goal
      invariant forall k :: 0 <= k < a.Length && !(lo <= k < lo + n) ==> a[k] == old(a[k])
    {
      assert a[lo+pc] == p.x[pc];
      ScanDownNext(cmp, v, p);
      p := Down(cmp, v, p);
      if cmp(a[lo+pc], v) == 0 {
        SwapAt(a, lo, n, pc, pd);
        pd := pd - 1;
      }
      pc := pc - 1;
    }
    ScanDownNext(cmp, v, p);
  }

  lemma {:induction false} ScanDownNext<T>(cmp: Cmp<T>, v: T, p: Scan<T>)
    requires p.InRange()
    ensures ScanDown(cmp, v, p) ==
            if p.pb <= p.pc && cmp(p.x[p.pc], v) >= 0 then ScanDown(cmp, v, Down(cmp, v, p)) else p
  {
  }

  /** Both scans, one after the other. */
  method ScanAt<T>(a: array<T>, lo: nat, n: nat, cmp: Cmp<T>, v: T, pa0: nat, pb0: nat, pc0: int, pd0: int)
    returns (pa: nat, pb: nat, pc: int, pd: int)
    requires lo + n <= a.Length && Scan(a[lo..lo+n], pa0, pb0, pc0, pd0).InRange()
    modifies a
    ensures Scan(a[lo..lo+n], pa, pb, pc, pd) == Scanned(cmp, v, Scan(old(a[lo..lo+n]), pa0, pb0, pc0, pd0))
    ensures forall k :: 0 <= k < a.Length && !(lo <= k < lo + n) ==> a[k] == old(a[k])
  {
    hide ScanUp, ScanDown;
    pa, pb := ScanUpAt(a, lo, n, cmp, v, pa0, pb0, pc0, pd0);
    pc, pd := ScanDownAt(a, lo, n, cmp, v, pa, pb, pc0, pd0);
  }

  method PartitionAt<T>(a: array<T>, lo: nat, n: nat, cmp: Cmp<T>, v: T, ghost goal: Scan<T>)
    returns (pa: nat, pb: nat, pc: int, pd: int)
    requires lo + n <= a.Length && goal == Partition(cmp, v, Scan(a[lo..lo+n], 0, 0, n - 1, n - 1))
    modifies a
    ensures Scan(a[lo..lo+n], pa, pb, pc, pd) == goal
    ensures forall k :: 0 <= k < a.Length && !(lo <= k < lo + n) ==> a[k] == old(a[k])
  {
    hide Partition, Scanned;
    pa, pb, pc, pd := 0, 0, n - 1, n - 1;
    ghost var p := Scan(a[lo..lo+n], pa, pb, pc, pd);
    while true
      invariant p == Scan(a[lo..lo+n], pa, pb, pc, pd) && p.InRange() && Partition(cmp, v, p) == goal
      invariant forall k :: 0 <= k < a.Length && !(lo <= k < lo + n) ==> a[k] == old(a[k])
      decreases pc + 1 - pb
    {
      PartitionNext(cmp, v, p);
      pa, pb, pc, pd := ScanAt(a, lo, n, cmp, v, pa, pb, pc, pd);
      if pb > pc {
        break;
      }
      p := Exchanged(Scanned(cmp, v, p));
      SwapAt(a, lo, n, pb, pc);
      pb := pb + 1;
      pc := pc - 1;
    }
  }

  lemma {:induction false} PartitionNext<T>(cmp: Cmp<T>, v: T, p: Scan<T>)
    requires p.InRange()
    ensures var u := Scanned(cmp, v, p);
            Partition(cmp, v, p) == if u.pb > u.pc then u else Partition(cmp, v, Exchanged(u))
  {
  }

  /** Swap two runs of `count` elements, one pair at a time. */
  method SwapRunsAt<T>(a: array<T>, lo: nat, n: nat, i: nat, j: nat, count: nat)
    requires lo + n <= a.Length && i + count <= n && j + count <= n
    modifies a
    ensures a[lo..lo+n] == SwapRuns(old(a[lo..lo+n]), i, j, count)
    ensures forall k :: 0 <= k < a.Length && !(lo <= k < lo + n) ==> a[k] == old(a[k])
  {
    var r := 0;
    while r < count
      invariant 0 <= r <= count
      invariant SwapRuns(a[lo..lo+n], i + r, j + r, count - r) == SwapRuns(old(a[lo..lo+n]), i, j, count)
      invariant forall k :: 0 <= k < a.Length && !(lo <= k < lo + n) ==> a[k] == old(a[k])
    {
      SwapAt(a, lo, n, i + r, j + r);
      r := r + 1;
    }
  }

  /** Bring both runs of pivot-equals into the middle. */
  method ArrangeAt<T>(a: array<T>, lo: nat, n: nat, pa: nat, pb: nat, ghost pc: int, pd: int)
    requires lo + n <= a.Length && Scan(a[lo..lo+n], pa, pb, pc, pd).InRange() && pb == pc + 1
    modifies a
    ensures a[lo..lo+n] == Arrange(Scan(old(a[lo..lo+n]), pa, pb, pc, pd))
    ensures forall k :: 0 <= k < a.Length && !(lo <= k < lo + n) ==> a[k] == old(a[k])
  {
    SwapRunsAt(a, lo, n, 0, pb - pa, pa);
    var ends := n - 1 - pd;
    SwapRunsAt(a, lo, n, pb, n - ends, ends);
  }

  /** Partition around the pivot. */
  method PartAt<T(!new)>(a: array<T>, lo: nat, n: nat, cmp: Cmp<T>, ghost goal: Scan<T>)
    returns (pa: nat, pb: nat, pc: int, pd: int)
    requires lo + n <= a.Length && n >= 7 && goal == Parted(cmp, a[lo..lo+n])
    modifies a
    ensures Scan(a[lo..lo+n], pa, pb, pc, pd) == goal
    ensures forall k :: 0 <= k < a.Length && !(lo <= k < lo + n) ==> a[k] == old(a[k])
  {
    hide *;
    var v := Pivot(a[lo..lo+n], cmp, goal);
    pa, pb, pc, pd := PartitionAt(a, lo, n, cmp, v, goal);
  }

  /** The element to divide by. */
  method Pivot<T(!new)>(x: seq<T>, cmp: Cmp<T>, ghost goal: Scan<T>) returns (v: T)
    requires |x| >= 7 && goal == Parted(cmp, x)
    ensures goal == Partition(cmp, v, Scan(x, 0, 0, |x| - 1, |x| - 1))
  {
    v := x[PivotIndex(cmp, x)];
  }

  lemma {:induction false} DivideIs<T(!new)>(cmp: Cmp<T>, x: seq<T>, p: Scan<T>, y: seq<T>)
    requires |x| >= 7 && Reflexive(cmp) && p == Parted(cmp, x) && y == Arrange(p)
    ensures var l, g := Less(p), Greater(p);
            l < |x| && g < |x| && l + g <= |x| && Parts(y[..l], y[l..|x|-g], y[|x|-g..]) == Divide(cmp, x)
  {
    PartsShorter(cmp, x);
  }

  /** One level: partition around the pivot and bring its equals into the middle.  Returns
      the lengths of the lesser and the greater part. */
  method DivideAt<T(!new)>(a: array<T>, lo: nat, n: nat, cmp: Cmp<T>) returns (l: nat, g: nat)
    requires lo + n <= a.Length && n >= 7 && Reflexive(cmp)
    modifies a
    ensures l < n && g < n && l + g <= n
    ensures Parts(a[lo..lo+n][..l], a[lo..lo+n][l..n-g], a[lo..lo+n][n-g..]) == Divide(cmp, old(a[lo..lo+n]))
    ensures forall k :: 0 <= k < a.Length && !(lo <= k < lo + n) ==> a[k] == old(a[k])
  {
    hide Parted, Divide, Arrange, Reflexive;
    ghost var x := a[lo..lo+n];
    var pa, pb, pc, pd := PartAt(a, lo, n, cmp, Parted(cmp, x));
    ghost var p := Scan(a[lo..lo+n], pa, pb, pc, pd);
    ArrangeAt(a, lo, n, pa, pb, pc, pd);
    DivideIs(cmp, x, p, a[lo..lo+n]);
    l, g := pb - pa, pd + 1 - pb;
  }

  /** `s` with `t` written over it at `lo`. */
  function Put<T>(s: seq<T>, lo: nat, t: seq<T>): (r: seq<T>)
    requires lo + |t| <= |s|
    ensures |r| == |s|
  {
    s[..lo] + t + s[lo+|t|..]
  }

  lemma {:induction false} PutIs<T>(s: seq<T>, r: seq<T>, lo: nat, n: nat)
    requires |r| == |s| && lo + n <= |s|
    requires forall k :: 0 <= k < |s| && !(lo <= k < lo + n) ==> r[k] == s[k]
    ensures r == Put(s, lo, r[lo..lo+n])
  {
  }

  lemma {:induction false} PutElsewhere<T>(s: seq<T>, lo: nat, t: seq<T>, i: nat, j: nat)
    requires lo + |t| <= |s| && i <= j <= |s| && (j <= lo || lo + |t| <= i)
    ensures Put(s, lo, t)[i..j] == s[i..j]
  {
  }

  lemma {:induction false} Join<T>(s: seq<T>, lo: nat, n: nat, l: nat, g: nat)
    requires lo + n <= |s| && l + g <= n
    ensures s[lo..lo+n] == s[lo..lo+l] + s[lo+l..lo+n-g] + s[lo+n-g..lo+n]
    ensures s[lo..lo+n][..l] == s[lo..lo+l] && s[lo..lo+n][l..n-g] == s[lo+l..lo+n-g]
    ensures s[lo..lo+n][n-g..] == s[lo+n-g..lo+n]
  {
  }

  /** Writing over the front and the back of a stretch leaves its middle. */
  lemma {:induction false} PutEnds<T>(s: seq<T>, lo: nat, n: nat, f: seq<T>, b: seq<T>)
    requires lo + n <= |s| && |f| + |b| <= n
    ensures var l, g := |f|, |b|;
            var one := Put(s, lo, f);
            var two := Put(one, lo + n - g, b);
            one[lo+n-g..lo+n] == s[lo+n-g..lo+n] &&
            two[lo..lo+n] == f + s[lo+l..lo+n-g] + b
    ensures forall k :: 0 <= k < |s| && !(lo <= k < lo + n) ==> Put(Put(s, lo, f), lo + n - |b|, b)[k] == s[k]
  {
    hide Put;
    var l, g := |f|, |b|;
    var one := Put(s, lo, f);
    var two := Put(one, lo + n - g, b);
    PutHere(s, lo, f);
    PutHere(one, lo + n - g, b);
    PutElsewhere(s, lo, f, lo + l, lo + n - g);
    PutElsewhere(s, lo, f, lo + n - g, lo + n);
    PutElsewhere(one, lo + n - g, b, lo, lo + l);
    PutElsewhere(one, lo + n - g, b, lo + l, lo + n - g);
    Join(two, lo, n, l, g);
  }

  lemma {:induction false} PutHere<T>(s: seq<T>, lo: nat, t: seq<T>)
    requires lo + |t| <= |s|
    ensures Put(s, lo, t)[lo..lo+|t|] == t
    ensures forall k :: 0 <= k < |s| && !(lo <= k < lo + |t|) ==> Put(s, lo, t)[k] == s[k]
  {
  }

  /** Sort one part of a divided stretch, if there is anything to sort. */
  method SortPart<T(!new)>(a: array<T>, lo: nat, n: nat, cmp: Cmp<T>, ghost was: seq<T>)
    requires lo + n <= a.Length && Reflexive(cmp) && was == a[..][lo..lo+n]
    modifies a
    ensures a[..] == Put(old(a[..]), lo, QuickSort(cmp, was))
    decreases n, 2
  {
    assert was == a[lo..lo+n];
    if n > 1 {
      Sort(a, lo, n, cmp);
    }
    PutIs(old(a[..]), a[..], lo, n);
    assert a[..][lo..lo+n] == a[lo..lo+n];
  }

  /** Sort the front and the back part of a divided stretch. */
  method SortEnds<T(!new)>(a: array<T>, lo: nat, n: nat, l: nat, g: nat, cmp: Cmp<T>,
                           ghost s: seq<T>, ghost f: seq<T>, ghost b: seq<T>)
    requires lo + n <= a.Length && l < n && g < n && l + g <= n && Reflexive(cmp) && s == a[..]
    requires f == QuickSort(cmp, s[lo..lo+l]) && b == QuickSort(cmp, s[lo+n-g..lo+n])
    modifies a
    ensures a[..] == Put(Put(s, lo, f), lo + n - g, b)
    decreases n, 0
  {
    hide QuickSort, Put, Reflexive;
    PutElsewhere(s, lo, f, lo + n - g, lo + n);
    SortPart(a, lo, l, cmp, s[lo..lo+l]);
    SortPart(a, lo + n - g, g, cmp, s[lo+n-g..lo+n]);
  }

  /** Both parts sorted, the stretch is sorted as the function says. */
  lemma {:induction false} SortedParts<T(!new)>(cmp: Cmp<T>, s: seq<T>, x: seq<T>, lo: nat, n: nat, l: nat, g: nat)
    requires lo + n <= |s| && l < n && g < n && l + g <= n && |x| == n >= 7 && Reflexive(cmp)
    requires Divide(cmp, x) == Parts(s[lo..lo+l], s[lo+l..lo+n-g], s[lo+n-g..lo+n])
    ensures var f, b := QuickSort(cmp, s[lo..lo+l]), QuickSort(cmp, s[lo+n-g..lo+n]);
            var t := Put(Put(s, lo, f), lo + n - g, b);
            t[lo..lo+n] == QuickSort(cmp, x) &&
            forall k :: 0 <= k < |s| && !(lo <= k < lo + n) ==> t[k] == s[k]
  {
    hide Put, Divide, Reflexive;
    PutEnds(s, lo, n, QuickSort(cmp, s[lo..lo+l]), QuickSort(cmp, s[lo+n-g..lo+n]));
  }

  /** The sort of the `n` elements starting at `lo`. */
  method Sort<T(!new)>(a: array<T>, lo: nat, n: nat, cmp: Cmp<T>)
    requires lo + n <= a.Length && Reflexive(cmp)
    modifies a
    ensures a[lo..lo+n] == QuickSort(cmp, old(a[lo..lo+n]))
    ensures forall k :: 0 <= k < a.Length && !(lo <= k < lo + n) ==> a[k] == old(a[k])
    decreases n, 1
  {
    if n < 7 {
      InsertionSort(a, lo, n, cmp);
      return;
    }
    ghost var x := a[lo..lo+n];
    var l, g := DivideAt(a, lo, n, cmp);
    assert a[..][lo..lo+n] == a[lo..lo+n];
    Join(a[..], lo, n, l, g);
    ghost var s := a[..];
    SortedParts(cmp, s, x, lo, n, l, g);
    SortEnds(a, lo, n, l, g, cmp, s, QuickSort(cmp, s[lo..lo+l]), QuickSort(cmp, s[lo+n-g..lo+n]));
    assert a[..][lo..lo+n] == a[lo..lo+n];
  }
}
