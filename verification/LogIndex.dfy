/** The splitter's index of live allocations: a sorted list of start addresses, the list of
    allocations parallel to it, and a stack of allocations for each start address. */
module LogIndex {
  import opened Options
  import opened StoreFiles
  import opened LogSplit
  import opened LiveAllocs

  lemma {:induction false} BelowIs(s: seq<nat>, x: nat, k: nat)
    requires k <= |s| && (forall i :: 0 <= i < k ==> s[i] < x) && (k < |s| ==> s[k] >= x)
    ensures Below(s, x) == k
  {
    var j := Below(s, x);
    assert j == k;
  }

  lemma {:induction false} UpToIs(s: seq<nat>, x: nat, k: nat)
    requires k <= |s| && (forall i :: 0 <= i < k ==> s[i] <= x) && (k < |s| ==> s[k] > x)
    ensures UpTo(s, x) == k
  {
    var j := UpTo(s, x);
    assert j == k;
  }

  method BisectLeft(s: seq<nat>, x: nat) returns (k: nat)
    requires Sorted(s)
    ensures k == Below(s, x)
  {
    var lo, hi := 0, |s|;
    while lo < hi
      invariant 0 <= lo <= hi <= |s|
      invariant forall i :: 0 <= i < lo ==> s[i] < x
      invariant forall i :: hi <= i < |s| ==> s[i] >= x
    {
      var mid := (lo + hi) / 2;
      if s[mid] < x {
        lo := mid + 1;
      } else {
        hi := mid;
      }
    }
    k := lo;
    BelowIs(s, x, k);
  }

  method BisectRight(s: seq<nat>, x: nat) returns (k: nat)
    requires Sorted(s)
    ensures k == UpTo(s, x)
  {
    var lo, hi := 0, |s|;
    while lo < hi
      invariant 0 <= lo <= hi <= |s|
      invariant forall i :: 0 <= i < lo ==> s[i] <= x
      invariant forall i :: hi <= i < |s| ==> s[i] > x
    {
      var mid := (lo + hi) / 2;
      if x < s[mid] {
        hi := mid;
      } else {
        lo := mid + 1;
      }
    }
    k := lo;
    UpToIs(s, x, k);
  }

  // ------------------------------------------------------------------ lists of allocations

  /** The values `v` are those of the objects `live`, up to what they hold. */
  predicate Matches(live: seq<LiveAlloc>, v: seq<Alloc>)
  {
    |v| == |live| && forall i :: 0 <= i < |v| ==>
      v[i].start == live[i].start && v[i].size == live[i].size && v[i].usage == live[i].usage
  }

  function StartsOf(live: seq<LiveAlloc>): (s: seq<nat>)
    ensures |s| == |live| && forall i :: 0 <= i < |s| ==> s[i] == live[i].start
  {
    seq(|live|, i requires 0 <= i < |live| => live[i].start)
  }

  predicate Precedes(a: LiveAlloc, b: LiveAlloc)
  {
    a.start < b.start || (a.start == b.start && a.usage > b.usage)
  }

  predicate InOrder(live: seq<LiveAlloc>)
  {
    forall i, j {:trigger Precedes(live[i], live[j])} :: 0 <= i < j < |live| ==> Precedes(live[i], live[j])
  }

  lemma {:induction false} InOrderSorted(live: seq<LiveAlloc>)
    requires InOrder(live)
    ensures Sorted(StartsOf(live))
  {
    forall i, j | 0 <= i < j < |live| ensures live[i].start <= live[j].start { assert Precedes(live[i], live[j]); }
  }

  /** The allocations at an address, oldest first. */
  function StackAt(live: seq<LiveAlloc>, start: nat): (s: seq<LiveAlloc>)
  {
    if live == [] then []
    else if live[0].start == start then StackAt(live[1..], start) + [live[0]]
    else StackAt(live[1..], start)
  }

  lemma {:induction false} StackConcat(x: seq<LiveAlloc>, y: seq<LiveAlloc>, start: nat)
    ensures StackAt(x + y, start) == StackAt(y, start) + StackAt(x, start)
    decreases |x|
  {
    if x == [] {
      assert x + y == y;
    } else {
      StackConcat(x[1..], y, start);
      assert (x + y)[1..] == x[1..] + y;
    }
  }

  lemma {:induction false} NoStackBelow(x: seq<LiveAlloc>, start: nat)
    requires forall i :: 0 <= i < |x| ==> x[i].start < start
    ensures StackAt(x, start) == []
  {
    if x != [] { NoStackBelow(x[1..], start); }
  }

  lemma {:induction false} StackOne(a: LiveAlloc, start: nat)
    ensures StackAt([a], start) == if a.start == start then [a] else []
  {
    assert [a][1..] == [];
  }

  /** An allocation put where the bisection says comes on top of its stack. */
  lemma {:induction false} StackInsert(live: seq<LiveAlloc>, a: LiveAlloc, k: nat, start: nat)
    requires k <= |live| && forall i :: 0 <= i < k ==> live[i].start < a.start
    ensures StackAt(live[..k] + [a] + live[k..], start)
            == StackAt(live, start) + if a.start == start then [a] else []
  {
    var x, y := live[..k], live[k..];
    assert live == x + y && live[..k] + [a] + live[k..] == x + ([a] + y);
    StackConcat(x, [a] + y, start);
    StackConcat([a], y, start);
    StackConcat(x, y, start);
    StackOne(a, start);
    if a.start == start { NoStackBelow(x, start); }
  }

  /** Taking out the first allocation at an address pops its stack. */
  lemma {:induction false} StackRemove(live: seq<LiveAlloc>, k: nat, start: nat)
    requires k < |live| && forall i :: 0 <= i < k ==> live[i].start < live[k].start
    ensures StackAt(live, start) == StackAt(live[..k] + live[k+1..], start)
            + if live[k].start == start then [live[k]] else []
  {
    var rest := live[..k] + live[k+1..];
    StackInsert(rest, live[k], k, start);
    assert rest[..k] + [live[k]] + rest[k..] == live;
  }

  lemma {:induction false} StackTop(live: seq<LiveAlloc>, k: nat, start: nat)
    requires k <= |live| && (forall i :: 0 <= i < k ==> live[i].start < start)
    requires k < |live| ==> live[k].start >= start
    requires Sorted(StartsOf(live))
    ensures StackAt(live, start) != [] <==> k < |live| && live[k].start == start
    ensures StackAt(live, start) != [] ==> StackAt(live, start)[|StackAt(live, start)|-1] == live[k]
  {
    if k < |live| && live[k].start == start {
      StackRemove(live, k, start);
    } else {
      var s := StartsOf(live);
      forall i | 0 <= i < |live| ensures live[i].start != start { assert k < i ==> s[k] <= s[i]; }
      NoStackElsewhere(live, start);
    }
  }

  lemma {:induction false} NoStackElsewhere(x: seq<LiveAlloc>, start: nat)
    requires forall i :: 0 <= i < |x| ==> x[i].start != start
    ensures StackAt(x, start) == []
  {
    if x != [] { NoStackElsewhere(x[1..], start); }
  }

  // ------------------------------------------------------------------ the index

  lemma {:induction false} PlaceOfNew(live: seq<LiveAlloc>, a: LiveAlloc, k: nat, i: nat)
    requires InOrder(live) && k == Below(StartsOf(live), a.start) && i < |live|
    requires live[i].start == a.start ==> live[i].usage < a.usage
    ensures if i < k then Precedes(live[i], a) else Precedes(a, live[i])
  {
    var s := StartsOf(live);
    InOrderSorted(live);
    assert i < k ==> s[i] < a.start;
    assert i >= k ==> s[k] >= a.start && s[k] <= s[i];
  }

  lemma {:induction false} InsertInOrder(live: seq<LiveAlloc>, a: LiveAlloc, k: nat)
    requires InOrder(live) && k == Below(StartsOf(live), a.start)
    requires forall i :: 0 <= i < |live| && live[i].start == a.start ==> live[i].usage < a.usage
    ensures InOrder(live[..k] + [a] + live[k..])
  {
    var now := live[..k] + [a] + live[k..];
    forall i, j | 0 <= i < j < |now| ensures Precedes(now[i], now[j]) {
      var i', j' := if i < k then i else i - 1, if j < k then j else j - 1;
      if i == k {
        PlaceOfNew(live, a, k, j');
      } else if j == k {
        PlaceOfNew(live, a, k, i');
      } else {
        assert Precedes(live[i'], live[j']);
      }
    }
  }

  function At(stacks: map<nat, seq<LiveAlloc>>, start: nat): (s: seq<LiveAlloc>)
  {
    if start in stacks then stacks[start] else []
  }

  ghost predicate StacksAgree(stacks: map<nat, seq<LiveAlloc>>, live: seq<LiveAlloc>)
  {
    forall st :: At(stacks, st) == StackAt(live, st)
  }

  lemma {:induction false} AddAgrees(stacks: map<nat, seq<LiveAlloc>>, live: seq<LiveAlloc>, a: LiveAlloc, k: nat)
    requires StacksAgree(stacks, live) && k == Below(StartsOf(live), a.start)
    ensures StacksAgree(stacks[a.start := At(stacks, a.start) + [a]], live[..k] + [a] + live[k..])
  {
    var now, s := stacks[a.start := At(stacks, a.start) + [a]], StartsOf(live);
    forall i | 0 <= i < k ensures live[i].start < a.start { assert s[i] < a.start; }
    forall st ensures At(now, st) == StackAt(live[..k] + [a] + live[k..], st) {
      StackInsert(live, a, k, st);
      assert At(stacks, st) == StackAt(live, st);
    }
  }

  lemma {:induction false} RemoveAgrees(stacks: map<nat, seq<LiveAlloc>>, live: seq<LiveAlloc>, k: nat)
    requires StacksAgree(stacks, live) && k < |live| && k == Below(StartsOf(live), live[k].start)
    ensures var a := live[k];
            a.start in stacks && stacks[a.start] != [] && stacks[a.start][|stacks[a.start]|-1] == a &&
            StacksAgree(stacks[a.start := stacks[a.start][..|stacks[a.start]|-1]], live[..k] + live[k+1..])
  {
    var a, s := live[k], StartsOf(live);
    forall i | 0 <= i < k ensures live[i].start < a.start { assert s[i] < a.start; }
    StackRemove(live, k, a.start);
    assert At(stacks, a.start) == StackAt(live, a.start);
    var now := stacks[a.start := stacks[a.start][..|stacks[a.start]|-1]];
    forall st ensures At(now, st) == StackAt(live[..k] + live[k+1..], st) {
      StackRemove(live, k, st);
      assert At(stacks, st) == StackAt(live, st);
    }
  }

  /** One consistent sorted index. */
  ghost predicate Consistent(starts: seq<nat>, live: seq<LiveAlloc>, stacks: map<nat, seq<LiveAlloc>>)
  {
    starts == StartsOf(live) && InOrder(live) && StacksAgree(stacks, live)
  }

  lemma {:induction false} StartsInsert(live: seq<LiveAlloc>, a: LiveAlloc, k: nat)
    requires k <= |live|
    ensures StartsOf(live[..k] + [a] + live[k..]) == StartsOf(live)[..k] + [a.start] + StartsOf(live)[k..]
  {
  }

  lemma {:induction false} StartsRemove(live: seq<LiveAlloc>, k: nat)
    requires k < |live|
    ensures StartsOf(live[..k] + live[k+1..]) == StartsOf(live)[..k] + StartsOf(live)[k+1..]
  {
  }

  lemma {:induction false} RemoveInOrder(live: seq<LiveAlloc>, k: nat)
    requires InOrder(live) && k < |live|
    ensures InOrder(live[..k] + live[k+1..])
  {
    var now := live[..k] + live[k+1..];
    forall i, j | 0 <= i < j < |now| ensures Precedes(now[i], now[j]) {
      var i', j' := if i < k then i else i + 1, if j < k then j else j + 1;
      assert now[i] == live[i'] && now[j] == live[j'];
      assert Precedes(live[i'], live[j']);
    }
  }

  lemma {:induction false} AddConsistent(starts: seq<nat>, live: seq<LiveAlloc>, stacks: map<nat, seq<LiveAlloc>>,
                                         a: LiveAlloc, k: nat)
    requires Consistent(starts, live, stacks) && k == Below(starts, a.start)
    requires forall i :: 0 <= i < |live| && live[i].start == a.start ==> live[i].usage < a.usage
    ensures Consistent(starts[..k] + [a.start] + starts[k..], live[..k] + [a] + live[k..],
                       stacks[a.start := At(stacks, a.start) + [a]])
  {
    StartsInsert(live, a, k);
    InsertInOrder(live, a, k);
    AddAgrees(stacks, live, a, k);
  }

  lemma {:induction false} RemoveConsistent(starts: seq<nat>, live: seq<LiveAlloc>, stacks: map<nat, seq<LiveAlloc>>, k: nat)
    requires Consistent(starts, live, stacks) && k < |live| && k == Below(starts, live[k].start)
    ensures var a := live[k];
            a.start in stacks && stacks[a.start] != [] &&
            Consistent(starts[..k] + starts[k+1..], live[..k] + live[k+1..],
                       stacks[a.start := stacks[a.start][..|stacks[a.start]|-1]])
  {
    StartsRemove(live, k);
    RemoveInOrder(live, k);
    RemoveAgrees(stacks, live, k);
  }

  lemma {:induction false} OrderedOnce(live: seq<LiveAlloc>, i: nat, j: nat)
    requires InOrder(live) && i < |live| && j < |live| && live[i] == live[j]
    ensures i == j
  {
    assert i < j ==> Precedes(live[i], live[j]);
    assert j < i ==> Precedes(live[j], live[i]);
  }

  /** First position of an allocation in a list. */
  method Position(live: seq<LiveAlloc>, a: LiveAlloc) returns (idx: nat)
    requires a in live
    ensures idx < |live| && live[idx] == a
  {
    idx := 0;
    while live[idx] != a
      invariant 0 <= idx < |live| && a !in live[..idx]
      decreases |live| - idx
    {
      assert a in live[idx+1..] by { assert live == live[..idx] + [live[idx]] + live[idx+1..]; }
      idx := idx + 1;
    }
  }

  method ScanAll(live: seq<LiveAlloc>, addr: nat, ghost v: seq<Alloc>) returns (r: Option<nat>)
    requires Matches(live, v)
    ensures r == Scan(v, addr)
  {
    var i := 0;
    while i < |live|
      invariant 0 <= i <= |live| && forall j :: 0 <= j < i ==> !v[j].Contains(addr)
    {
      if live[i].start <= addr < live[i].start + live[i].size {
        assert v[i].Contains(addr);
        return Some(i);
      }
      i := i + 1;
    }
    return None;
  }

  class Index {
    var starts: seq<nat>
    var live: seq<LiveAlloc>
    var stacks: map<nat, seq<LiveAlloc>>

    ghost predicate Valid()
      reads this
    {
      Consistent(starts, live, stacks)
    }

    constructor ()
      ensures Valid() && live == []
    {
      starts, live, stacks := [], [], map[];
    }

    /** Insert an allocation that is newer than those at the same address. */
    method Add(a: LiveAlloc)
      requires Valid() && forall i :: 0 <= i < |live| && live[i].start == a.start ==> live[i].usage < a.usage
      modifies this
      ensures Valid()
      ensures var k := Below(StartsOf(old(live)), a.start); live == old(live)[..k] + [a] + old(live)[k..]
    {
      InOrderSorted(live);
      var k := BisectLeft(starts, a.start);
      AddConsistent(starts, live, stacks, a, k);
      starts, live, stacks := starts[..k] + [a.start] + starts[k..], live[..k] + [a] + live[k..],
        stacks[a.start := At(stacks, a.start) + [a]];
    }

    /** The newest allocation at an address, if there is one. */
    method Newest(start: nat) returns (a: LiveAlloc?)
      requires Valid()
      ensures var k := Below(starts, start);
              if k < |live| && live[k].start == start then a == live[k] else a == null
    {
      InOrderSorted(live);
      StackTop(live, Below(starts, start), start);
      var s := At(stacks, start);
      assert s == StackAt(live, start);
      a := if s != [] then s[|s|-1] else null;
    }

    /** Take out the newest allocation at its address. */
    method Remove(a: LiveAlloc, ghost k: nat)
      requires Valid() && k < |live| && live[k] == a && k == Below(starts, a.start)
      modifies this
      ensures Valid() && live == old(live)[..k] + old(live)[k+1..]
    {
      RemoveConsistent(starts, live, stacks, k);
      var idx := Position(live, a);
      OrderedOnce(live, idx, k);
      starts, live, stacks := starts[..idx] + starts[idx+1..], live[..idx] + live[idx+1..],
        stacks[a.start := stacks[a.start][..|stacks[a.start]|-1]];
    }

    /** Where a store to an address goes: bisection first, then all allocations in turn. */
    method Lookup(addr: nat, ghost v: seq<Alloc>) returns (r: Option<nat>)
      requires Valid() && Matches(live, v)
      ensures r == Probe(v, addr)
    {
      InOrderSorted(live);
      assert Starts(v) == starts;
      var pos := BisectRight(starts, addr);
      if pos > 0 && live[pos-1].start <= addr < live[pos-1].start + live[pos-1].size {
        return Some(pos - 1);
      }
      r := ScanAll(live, addr, v);
    }
  }
}
