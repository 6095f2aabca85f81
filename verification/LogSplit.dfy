/** What memlog's log splitter computes: a log of allocations, frees and stores becomes one
    list of lines per allocation.  Live allocations are kept sorted by start address, the
    newest first among those that start at the same address. */
module LogSplit {
  import opened Options
  import opened StoreFiles

  /** A line of the log, by what the splitter recognises in it. */
  datatype Line =
    | Store(addr: nat, value: nat)
    | AllocStart | AllocEnd | FreeStart | FreeEnd
    | Header(start: nat, size: nat)
    | Text(text: string)

  /** An allocation is known by its start address and how often that was used before. */
  datatype Key = Key(start: nat, usage: nat)

  /** `stack` is what was gathered of its allocation stack, `body` what was written. */
  datatype Alloc = Alloc(start: nat, size: nat, usage: nat, stack: seq<string>, body: seq<FileLine>) {
    predicate Contains(addr: nat) { start <= addr < start + size }
    function Id(): (k: Key) { Key(start, usage) }
  }

  // ------------------------------------------------------------------ the sorted index

  function Starts(live: seq<Alloc>): (s: seq<nat>)
    ensures |s| == |live| && forall i :: 0 <= i < |s| ==> s[i] == live[i].start
  {
    seq(|live|, i requires 0 <= i < |live| => live[i].start)
  }

  /** How many leading starts are below `x`, and how many are not above it. */
  function Below(s: seq<nat>, x: nat): (k: nat)
    ensures k <= |s| && (k < |s| ==> s[k] >= x) && forall i :: 0 <= i < k ==> s[i] < x
  {
    if s == [] || s[0] >= x then 0 else 1 + Below(s[1..], x)
  }

  function UpTo(s: seq<nat>, x: nat): (k: nat)
    ensures k <= |s| && (k < |s| ==> s[k] > x) && forall i :: 0 <= i < k ==> s[i] <= x
  {
    if s == [] || s[0] > x then 0 else 1 + UpTo(s[1..], x)
  }

  predicate Sorted(s: seq<nat>)
  {
    forall i, j :: 0 <= i < j < |s| ==> s[i] <= s[j]
  }

  /** By start address, and newest first. */
  predicate Ordered(live: seq<Alloc>)
  {
    forall i, j :: 0 <= i < j < |live| ==>
      live[i].start < live[j].start || (live[i].start == live[j].start && live[i].usage > live[j].usage)
  }

  /** First allocation of the list that holds the address. */
  function Scan(live: seq<Alloc>, addr: nat): (r: Option<nat>)
    ensures r.Some? ==> r.value < |live| && live[r.value].Contains(addr)
    ensures r.Some? ==> forall i :: 0 <= i < r.value ==> !live[i].Contains(addr)
    ensures r.None? ==> forall i :: 0 <= i < |live| ==> !live[i].Contains(addr)
  {
    if live == [] then None
    else if live[0].Contains(addr) then Some(0)
    else
      var r := Scan(live[1..], addr);
      if r.Some? then Some(r.value + 1) else None
  }

  /** The last allocation that does not start above the address, if it holds it. */
  function Guess(live: seq<Alloc>, addr: nat): (r: Option<nat>)
    ensures r.Some? ==> r.value < |live| && live[r.value].Contains(addr)
  {
    var k := UpTo(Starts(live), addr);
    if k > 0 && live[k-1].Contains(addr) then Some(k - 1) else None
  }

  /** Where a store goes: the guess, or else the first that fits.  One is found if and only if
      some live allocation holds the address. */
  function Probe(live: seq<Alloc>, addr: nat): (r: Option<nat>)
    ensures r.Some? ==> r.value < |live| && live[r.value].Contains(addr)
    ensures r.Some? <==> exists i :: 0 <= i < |live| && live[i].Contains(addr)
  {
    if Guess(live, addr).Some? then Guess(live, addr) else Scan(live, addr)
  }

  predicate Disjoint(live: seq<Alloc>)
  {
    (forall i :: 0 <= i < |live| ==> live[i].size > 0) &&
    forall i, j :: 0 <= i < j < |live| ==>
      live[i].start + live[i].size <= live[j].start || live[j].start + live[j].size <= live[i].start
  }

  /** For blocks that are not empty and do not overlap the guess alone is right. */
  lemma {:induction false} GuessSuffices(live: seq<Alloc>, addr: nat)
    requires Ordered(live) && Disjoint(live)
    ensures Guess(live, addr) == Scan(live, addr)
  {
    hide Starts;
    var s := Scan(live, addr);
    var k := UpTo(Starts(live), addr);
    if s.Some? {
      var i := s.value;
      assert Starts(live)[i] <= addr;
      assert k < |live| ==> Starts(live)[k] > addr;
      assert k > i;
    }
  }

  function Insert(live: seq<Alloc>, a: Alloc): (r: seq<Alloc>)
  {
    var k := Below(Starts(live), a.start);
    live[..k] + [a] + live[k..]
  }

  function Removed(live: seq<Alloc>, k: nat): (r: seq<Alloc>)
    requires k < |live|
  {
    live[..k] + live[k+1..]
  }

  lemma {:induction false} InsertOrdered(live: seq<Alloc>, a: Alloc)
    requires Ordered(live) && forall i :: 0 <= i < |live| && live[i].start == a.start ==> live[i].usage < a.usage
    ensures Ordered(Insert(live, a))
  {
    var k := Below(Starts(live), a.start);
    forall i | k <= i < |live|
      ensures a.start < live[i].start || (a.start == live[i].start && a.usage > live[i].usage)
    {
      assert Starts(live)[k] >= a.start;
      assert i == k || live[k].start <= live[i].start;
    }
    forall i | 0 <= i < k ensures live[i].start < a.start { assert Starts(live)[i] < a.start; }
  }

  lemma {:induction false} RemovedOrdered(live: seq<Alloc>, k: nat)
    requires Ordered(live) && k < |live|
    ensures Ordered(Removed(live, k))
  {
  }

  lemma {:induction false} UpdateOrdered(live: seq<Alloc>, k: nat, a: Alloc)
    requires Ordered(live) && k < |live| && a.Id() == live[k].Id()
    ensures Ordered(live[k := a])
  {
  }

  /** The first of the live allocations at an address is the newest. */
  lemma {:induction false} NewestAt(live: seq<Alloc>, start: nat, i: nat)
    requires Ordered(live) && i < |live| && live[i].start == start
    ensures var k := Below(Starts(live), start);
            k <= i && live[k].start == start && (k < i ==> live[k].usage > live[i].usage)
  {
    var k := Below(Starts(live), start);
    assert Starts(live)[i] == start;
    assert Starts(live)[k] >= start;
    assert k < i ==> live[k].start <= live[i].start;
  }
}
