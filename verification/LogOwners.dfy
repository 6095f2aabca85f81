/** Which allocation a store belongs to, from the log alone: the uses of an address that are
    live before a line are the headers of ALLOC blocks not yet taken by a FREE header of that
    address, the newest first.  A log is accepted exactly when each store has such a use that
    holds its address, and the run gives the store to it. */
module LogOwners {
  import opened Options
  import opened StoreFiles
  import opened LogSplit
  import opened LogRun
  import opened LogStack

  // ------------------------------------------------------------------ live uses

  /** Between FREE START and FREE END. */
  predicate InFree(log: seq<Line>)
  {
    if log == [] then false
    else
      var last := log[|log|-1];
      last.FreeStart? || (!last.FreeEnd? && InFree(log[..|log|-1]))
  }

  /** A header of `start` in an ALLOC block, and in a FREE block; a line in both is the former. */
  predicate Allocates(log: seq<Line>, i: nat, start: nat)
    requires i < |log|
  {
    log[i].Header? && log[i].start == start && InAlloc(log[..i])
  }

  predicate Frees(log: seq<Line>, i: nat, start: nat)
    requires i < |log|
  {
    log[i].Header? && log[i].start == start && !InAlloc(log[..i]) && InFree(log[..i])
  }

  /** The uses of an address that are live after a log, the oldest first. */
  function LiveAt(log: seq<Line>, start: nat): (uses: seq<nat>)
  {
    if log == [] then []
    else
      var n := |log| - 1;
      var before := LiveAt(log[..n], start);
      if Allocates(log, n, start) then before + [UsedIn(log, start)]
      else if Frees(log, n, start) && before != [] then before[..|before|-1]
      else before
  }

  predicate IsLive(log: seq<Line>, k: Key)
  {
    k.usage in LiveAt(log, k.start)
  }

  /** Does the block of the use hold the address? */
  predicate Holds(log: seq<Line>, k: Key, addr: nat)
  {
    k.start <= addr < k.start + SizeOf(log, k)
  }

  ghost predicate HasHolder(log: seq<Line>, addr: nat)
  {
    exists k :: IsLive(log, k) && Holds(log, k, addr)
  }

  /** Every store has a live use that holds its address. */
  ghost predicate AllHeld(log: seq<Line>)
  {
    forall i :: 0 <= i < |log| && log[i].Store? ==> HasHolder(log[..i], log[i].addr)
  }

  /** Strictly ascending numbers from 1 to `top`. */
  predicate Ascending(l: seq<nat>, top: nat)
  {
    (forall i, j :: 0 <= i < j < |l| ==> l[i] < l[j]) && forall i :: 0 <= i < |l| ==> 1 <= l[i] <= top
  }

  lemma {:induction false} LiveAscending(log: seq<Line>, start: nat)
    ensures Ascending(LiveAt(log, start), UsedIn(log, start))
  {
    if log != [] {
      var n := |log| - 1;
      LiveAscending(log[..n], start);
      assert UsedIn(log, start) == UsedIn(log[..n], start) + if Allocates(log, n, start) then 1 else 0;
    }
  }

  // ------------------------------------------------------------------ live until freed

  /** ALLOC headers less FREE headers of an address in lines `p` to `q - 1`. */
  function Net(log: seq<Line>, start: nat, p: nat, q: nat): (d: int)
    requires p <= q <= |log|
    decreases q
  {
    if p == q then 0
    else Net(log, start, p, q - 1) +
         if Allocates(log, q - 1, start) then 1 else if Frees(log, q - 1, start) then -1 else 0
  }

  /** Behind line `p` there is no point up to which more was freed than allocated. */
  predicate Unfreed(log: seq<Line>, start: nat, p: nat, q: nat)
    requires p <= q <= |log|
  {
    forall r :: p <= r <= q ==> Net(log, start, p, r) >= 0
  }

  lemma {:induction false} LiveNext(log: seq<Line>, start: nat, q: nat)
    requires 0 < q <= |log|
    ensures var before := LiveAt(log[..q-1], start);
            LiveAt(log[..q], start) ==
            if Allocates(log, q - 1, start) then before + [UsedIn(log[..q], start)]
            else if Frees(log, q - 1, start) && before != [] then before[..|before|-1]
            else before
  {
    assert log[..q][..q-1] == log[..q-1];
  }

  lemma {:induction false} UsedNext(log: seq<Line>, start: nat, q: nat)
    requires 0 < q <= |log|
    ensures UsedIn(log[..q], start) == UsedIn(log[..q-1], start) + if Allocates(log, q - 1, start) then 1 else 0
  {
    assert log[..q][..q-1] == log[..q-1];
  }

  lemma {:induction false} UsedGrows(log: seq<Line>, start: nat, p: nat, q: nat)
    requires p <= q <= |log|
    ensures UsedIn(log[..p], start) <= UsedIn(log[..q], start)
    decreases q
  {
    if p < q {
      UsedGrows(log, start, p, q - 1);
      UsedNext(log, start, q);
    }
  }

  /** Where the use made in line `p` stands among the live uses later on. */
  lemma {:induction false} Depth(log: seq<Line>, start: nat, p: nat, q: nat)
    requires p < q <= |log| && Allocates(log, p, start)
    ensures var l, u := LiveAt(log[..q], start), UsedIn(log[..p+1], start);
            if Unfreed(log, start, p + 1, q) then
              Net(log, start, p + 1, q) < |l| && l[|l|-1-Net(log, start, p + 1, q)] == u
            else u !in l
    decreases q
  {
    hide LiveAt, UsedIn;
    LiveNext(log, start, q);
    if p + 1 < q {
      Depth(log, start, p, q - 1);
      UnfreedNext(log, start, p + 1, q);
      UsedNext(log, start, q);
      UsedGrows(log, start, p + 1, q - 1);
      LiveAscending(log[..q-1], start);
    }
  }

  lemma {:induction false} UnfreedNext(log: seq<Line>, start: nat, p: nat, q: nat)
    requires p < q <= |log|
    ensures Unfreed(log, start, p, q) <==> Unfreed(log, start, p, q - 1) && Net(log, start, p, q) >= 0
  {
  }

  /** Each live use was made by a header. */
  lemma {:induction false} LiveWasMade(log: seq<Line>, k: Key, q: nat) returns (p: nat)
    requires q <= |log| && IsLive(log[..q], k)
    ensures p < q && Allocates(log, p, k.start) && UsedIn(log[..p+1], k.start) == k.usage
    decreases q
  {
    LiveNext(log, k.start, q);
    if IsLive(log[..q-1], k) { p := LiveWasMade(log, k, q - 1); } else { p := q - 1; }
  }

  /** A use of an address is live if and only if a header in an ALLOC block made it and at no
      point since then more FREE than ALLOC headers of that address have come. */
  lemma {:induction false} LiveUntilFreed(log: seq<Line>, k: Key)
    ensures IsLive(log, k) <==>
            exists p :: 0 <= p < |log| && Allocates(log, p, k.start) && UsedIn(log[..p+1], k.start) == k.usage &&
                        Unfreed(log, k.start, p + 1, |log|)
  {
    hide LiveAt, UsedIn, Unfreed, Net;
    assert log[..|log|] == log;
    if IsLive(log, k) {
      var p := LiveWasMade(log, k, |log|);
      Depth(log, k.start, p, |log|);
    }
    if p :| 0 <= p < |log| && Allocates(log, p, k.start) && UsedIn(log[..p+1], k.start) == k.usage &&
            Unfreed(log, k.start, p + 1, |log|)
    {
      Depth(log, k.start, p, |log|);
      NetAtEnd(log, k.start, p + 1);
    }
  }

  lemma {:induction false} NetAtEnd(log: seq<Line>, start: nat, p: nat)
    requires p <= |log| && Unfreed(log, start, p, |log|)
    ensures Net(log, start, p, |log|) >= 0
  {
  }

  // ------------------------------------------------------------------ the run's live allocations

  /** The live allocations of the run are the live uses of the log. */
  ghost predicate LiveRight(s: State, log: seq<Line>)
  {
    s.inFree == InFree(log) && forall k :: HasKey(s.live, k) <==> IsLive(log, k)
  }

  lemma {:induction false} LiveSame(log: seq<Line>, line: Line, k: Key)
    requires !line.Header?
    ensures IsLive(log + [line], k) <==> IsLive(log, k)
  {
    assert (log + [line])[..|log|] == log;
  }

  lemma {:induction false} InFreeNext(log: seq<Line>, line: Line)
    ensures InFree(log + [line]) <==> line.FreeStart? || (!line.FreeEnd? && InFree(log))
  {
    assert (log + [line])[..|log|] == log;
  }

  lemma {:induction false} SameKeys(was: seq<Alloc>, now: seq<Alloc>)
    requires |was| == |now| && forall i :: 0 <= i < |was| ==> now[i].Id() == was[i].Id()
    ensures forall k :: HasKey(now, k) <==> HasKey(was, k)
  {
    forall k ensures HasKey(now, k) <==> HasKey(was, k) {
      if HasKey(was, k) {
        var i :| 0 <= i < |was| && was[i].Id() == k;
        assert now[i] in now;
      }
      if HasKey(now, k) {
        var i :| 0 <= i < |now| && now[i].Id() == k;
        assert was[i] in was;
      }
    }
  }

  lemma {:induction false} InsertKeys(live: seq<Alloc>, a: Alloc, k: Key)
    ensures HasKey(Insert(live, a), k) <==> HasKey(live, k) || k == a.Id()
  {
    var n := Below(Starts(live), a.start);
    assert live == live[..n] + live[n..];
    assert forall x :: x in Insert(live, a) <==> x in live || x == a;
  }

  lemma {:induction false} AllocLive(s: State, log: seq<Line>, start: nat, size: nat)
    requires LiveRight(s, log) && Follows(s, log) && InAlloc(log)
    ensures LiveRight(OnAlloc(s, start, size), log + [Header(start, size)])
  {
    var more, u := log + [Header(start, size)], UsedIn(log, start) + 1;
    assert more[..|log|] == log;
    InFreeNext(log, Header(start, size));
    assert Used(s.usage, start) == UsedIn(log, start);
    forall k ensures HasKey(OnAlloc(s, start, size).live, k) <==> IsLive(more, k) {
      InsertKeys(s.live, Alloc(start, size, u, [], []), k);
    }
  }

  lemma {:induction false} RemovedKeys(live: seq<Alloc>, n: nat, k: Key)
    requires Ordered(live) && n < |live|
    ensures HasKey(Removed(live, n), k) <==> HasKey(live, k) && k != live[n].Id()
  {
    if HasKey(Removed(live, n), k) { RemovedHad(live, n, k); }
    if HasKey(live, k) && k != live[n].Id() { RemovedHas(live, n, k); }
  }

  lemma {:induction false} RemovedHad(live: seq<Alloc>, n: nat, k: Key)
    requires Ordered(live) && n < |live| && HasKey(Removed(live, n), k)
    ensures HasKey(live, k) && k != live[n].Id()
  {
    hide Ordered;
    var now := Removed(live, n);
    var a :| a in now && a.Id() == k;
    var i :| 0 <= i < |now| && now[i] == a;
    var j := if i < n then i else i + 1;
    assert now[i] == live[j];
    OtherKeys(live, n, j);
    assert live[j] in live;
  }

  lemma {:induction false} OtherKeys(live: seq<Alloc>, i: nat, j: nat)
    requires Ordered(live) && i < |live| && j < |live| && i != j
    ensures live[i].Id() != live[j].Id()
  {
    if i < j { assert live[i].start < live[j].start || live[i].usage > live[j].usage; }
    else { assert live[j].start < live[i].start || live[j].usage > live[i].usage; }
  }

  lemma {:induction false} RemovedHas(live: seq<Alloc>, n: nat, k: Key)
    requires n < |live| && HasKey(live, k) && k != live[n].Id()
    ensures HasKey(Removed(live, n), k)
  {
    var now := Removed(live, n);
    var a :| a in live && a.Id() == k;
    var j :| 0 <= j < |live| && live[j] == a;
    var i := if j < n then j else j - 1;
    assert now[i] == live[j];
  }

  /** The newest live use of an address, and what is left without it. */
  lemma {:induction false} NewestUse(l: seq<nat>, top: nat, u: nat)
    requires Ascending(l, top) && u in l && forall v :: v in l ==> v <= u
    ensures l[|l|-1] == u && forall v :: v in l[..|l|-1] <==> v in l && v != u
  {
    var n := |l| - 1;
    var i :| 0 <= i <= n && l[i] == u;
    assert l[n] in l;
    assert i == n;
    forall v | v in l && v != u ensures v in l[..n] {
      var j :| 0 <= j <= n && l[j] == v;
      assert l[..n][j] == v;
    }
    forall v | v in l[..n] ensures v in l && v != u {
      var j :| 0 <= j < n && l[..n][j] == v;
      assert l[j] == v;
    }
  }

  /** The allocation a FREE header of `start` finds is the newest live use. */
  lemma {:induction false} FreeFinds(s: State, log: seq<Line>, start: nat)
    requires LiveRight(s, log) && Ordered(s.live)
    ensures var n, l := Below(Starts(s.live), start), LiveAt(log, start);
            (n < |s.live| && s.live[n].start == start <==> l != []) &&
            (l != [] ==> s.live[n].usage in l && forall v :: v in l ==> v <= s.live[n].usage)
  {
    var n, l := Below(Starts(s.live), start), LiveAt(log, start);
    forall v | v in l ensures n < |s.live| && s.live[n].start == start && v <= s.live[n].usage {
      assert IsLive(log, Key(start, v)) && HasKey(s.live, Key(start, v));
      var i :| 0 <= i < |s.live| && s.live[i].Id() == Key(start, v);
      NewestAt(s.live, start, i);
    }
    if n < |s.live| && s.live[n].start == start {
      assert s.live[n] in s.live;
      assert HasKey(s.live, s.live[n].Id());
    }
    if l != [] { assert l[0] in l; }
  }

  lemma {:induction false} FreeLive(s: State, log: seq<Line>, start: nat, size: nat)
    requires LiveRight(s, log) && Ordered(s.live) && InFree(log) && !InAlloc(log)
    ensures LiveRight(OnFree(s, start), log + [Header(start, size)])
  {
    var more, n, l := log + [Header(start, size)], Below(Starts(s.live), start), LiveAt(log, start);
    assert more[..|log|] == log;
    InFreeNext(log, Header(start, size));
    FreeFinds(s, log, start);
    if l != [] {
      LiveAscending(log, start);
      NewestUse(l, UsedIn(log, start), s.live[n].usage);
      forall k ensures HasKey(Removed(s.live, n), k) <==> IsLive(more, k) { RemovedKeys(s.live, n, k); }
    }
  }

  lemma {:induction false} OtherHeaderLive(s: State, log: seq<Line>, start: nat, size: nat)
    requires LiveRight(s, log) && !InFree(log) && !InAlloc(log)
    ensures LiveRight(Passed(s), log + [Header(start, size)])
  {
    assert (log + [Header(start, size)])[..|log|] == log;
    InFreeNext(log, Header(start, size));
  }

  lemma {:induction false} QuietLive(s: State, t: State, log: seq<Line>, line: Line)
    requires LiveRight(s, log) && !line.Header? && Step(s, line) == Success(t)
    ensures LiveRight(t, log + [line])
  {
    InFreeNext(log, line);
    StepKeepsKeys(s, t, line);
    SameKeys(s.live, t.live);
    forall k ensures HasKey(t.live, k) <==> IsLive(log + [line], k) { LiveSame(log, line, k); }
  }

  lemma {:induction false} StepKeepsKeys(s: State, t: State, line: Line)
    requires !line.Header? && Step(s, line) == Success(t)
    ensures |t.live| == |s.live| && forall i :: 0 <= i < |s.live| ==> t.live[i].Id() == s.live[i].Id()
    ensures t.inFree == (line.FreeStart? || (!line.FreeEnd? && s.inFree))
  {
  }

  lemma {:induction false} StepLive(s: State, t: State, log: seq<Line>, line: Line)
    requires LiveRight(s, log) && Follows(s, log) && Ordered(s.live) && Step(s, line) == Success(t)
    ensures LiveRight(t, log + [line])
  {
    assert s.inAlloc == InAlloc(log) && s.inFree == InFree(log);
    hide LiveRight, Ordered, OnAlloc, OnFree;
    match line
    case Header(start, size) =>
      if s.inAlloc {
        AllocLive(s, log, start, size);
      } else if s.inFree {
        FreeLive(s, log, start, size);
      } else {
        OtherHeaderLive(s, log, start, size);
      }
    case _ => QuietLive(s, t, log, line);
  }

  lemma {:induction false} RunLive(log: seq<Line>, s: State)
    requires Run(log) == Success(s)
    ensures LiveRight(s, log)
    decreases |log|
  {
    hide LiveRight, Follows, LiveAt, InFree;
    if log == [] {
      NothingLive();
    } else {
      var before, line, r := LastStep(log, s);
      RunLive(before, r);
      RunFollows(before, r);
      RunOrdered(before, r);
      StepLive(r, s, before, line);
    }
  }

  lemma {:induction false} NothingLive()
    ensures LiveRight(INITIAL, [])
  {
  }

  lemma {:induction false} RunOrdered(log: seq<Line>, s: State)
    requires Run(log) == Success(s)
    ensures Ordered(s.live)
  {
    hide Run, Ordered;
    RunKeeps(log, s);
  }

  // ------------------------------------------------------------------ the owner of a store

  /** Of the live uses not above the address: the greatest start, and its oldest use. */
  ghost predicate Nearest(log: seq<Line>, addr: nat, k: Key)
  {
    IsLive(log, k) && k.start <= addr &&
    forall j :: IsLive(log, j) && j.start <= addr ==> j.start < k.start || (j.start == k.start && k.usage <= j.usage)
  }

  /** Of the live uses that hold the address: the smallest start, and its newest use. */
  ghost predicate Lowest(log: seq<Line>, addr: nat, k: Key)
  {
    IsLive(log, k) && Holds(log, k, addr) &&
    forall j :: IsLive(log, j) && Holds(log, j, addr) ==> k.start < j.start || (j.start == k.start && j.usage <= k.usage)
  }

  /** The use a store goes to: the nearest one if it holds the address, and else the lowest one
      that does. */
  ghost predicate IsOwner(log: seq<Line>, addr: nat, k: Key)
  {
    if exists n :: Nearest(log, addr, n) && Holds(log, n, addr) then Nearest(log, addr, k) && Holds(log, k, addr)
    else Lowest(log, addr, k)
  }

  lemma {:induction false} OwnerUnique(log: seq<Line>, addr: nat, j: Key, k: Key)
    requires IsOwner(log, addr, j) && IsOwner(log, addr, k)
    ensures j == k
  {
  }

  lemma {:induction false} OwnerHolds(log: seq<Line>, addr: nat, k: Key)
    requires IsOwner(log, addr, k)
    ensures IsLive(log, k) && Holds(log, k, addr)
  {
  }

  /** The blocks of live uses do not overlap. */
  ghost predicate NoOverlap(log: seq<Line>)
  {
    forall j, k :: IsLive(log, j) && IsLive(log, k) && j != k ==>
      j.start + SizeOf(log, j) <= k.start || k.start + SizeOf(log, k) <= j.start
  }

  /** Where live blocks do not overlap, the owner is the only use that holds the address. */
  lemma {:induction false} OwnerIsOnly(log: seq<Line>, addr: nat, k: Key, j: Key)
    requires NoOverlap(log) && IsOwner(log, addr, k) && IsLive(log, j) && Holds(log, j, addr)
    ensures j == k
  {
    OwnerHolds(log, addr, k);
  }

  /** An allocation of the run and the use it is. */
  lemma {:induction false} AllocIsUse(log: seq<Line>, s: State, i: nat, addr: nat)
    requires Run(log) == Success(s) && i < |s.live|
    ensures IsLive(log, s.live[i].Id()) && (s.live[i].Contains(addr) <==> Holds(log, s.live[i].Id(), addr))
  {
    hide Run, LiveAt;
    RunLive(log, s);
    RunDescribed(log, s);
    assert s.live[i] in s.live;
    assert s.live[i] in s.live + s.done;
    assert HasKey(s.live, s.live[i].Id());
  }

  lemma {:induction false} UseIsAlloc(log: seq<Line>, s: State, k: Key) returns (i: nat)
    requires Run(log) == Success(s) && IsLive(log, k)
    ensures i < |s.live| && s.live[i].Id() == k
  {
    hide Run, LiveAt;
    RunLive(log, s);
    var a :| a in s.live && a.Id() == k;
    i :| 0 <= i < |s.live| && s.live[i] == a;
  }

  lemma {:induction false} HolderIff(log: seq<Line>, s: State, addr: nat)
    requires Run(log) == Success(s)
    ensures HasHolder(log, addr) <==> Probe(s.live, addr).Some?
  {
    hide Run, IsLive, Holds, Guess, Scan;
    if HasHolder(log, addr) {
      var k :| IsLive(log, k) && Holds(log, k, addr);
      var i := UseIsAlloc(log, s, k);
      AllocIsUse(log, s, i, addr);
      assert s.live[i].Contains(addr);
    }
    if Probe(s.live, addr).Some? { AllocIsUse(log, s, Probe(s.live, addr).value, addr); }
  }

  /** The last allocation that does not start above the address is the nearest use. */
  lemma {:induction false} LastIsNearest(log: seq<Line>, s: State, addr: nat)
    requires Run(log) == Success(s) && UpTo(Starts(s.live), addr) > 0
    ensures Nearest(log, addr, s.live[UpTo(Starts(s.live), addr)-1].Id())
  {
    hide Run, IsLive;
    var n := UpTo(Starts(s.live), addr) - 1;
    RunOrdered(log, s);
    AllocIsUse(log, s, n, addr);
    assert Starts(s.live)[n] <= addr;
    forall j | IsLive(log, j) && j.start <= addr
      ensures j.start < s.live[n].start || (j.start == s.live[n].start && s.live[n].usage <= j.usage)
    {
      var i := UseIsAlloc(log, s, j);
      UpToAll(s.live, addr, i);
    }
  }

  lemma {:induction false} UpToAll(live: seq<Alloc>, addr: nat, i: nat)
    requires Ordered(live) && i < |live| && live[i].start <= addr
    ensures i < UpTo(Starts(live), addr)
  {
    var n := UpTo(Starts(live), addr);
    assert n < |live| ==> live[n].start == Starts(live)[n] > addr;
  }

  lemma {:induction false} NoneNear(log: seq<Line>, s: State, addr: nat, k: Key)
    requires Run(log) == Success(s) && Nearest(log, addr, k)
    ensures UpTo(Starts(s.live), addr) > 0 && s.live[UpTo(Starts(s.live), addr)-1].Id() == k
  {
    hide Run, IsLive;
    RunOrdered(log, s);
    var i := UseIsAlloc(log, s, k);
    UpToAll(s.live, addr, i);
    LastIsNearest(log, s, addr);
    var j := s.live[UpTo(Starts(s.live), addr)-1].Id();
    assert IsLive(log, j) && j.start <= addr;
  }

  lemma {:induction false} FirstIsLowest(log: seq<Line>, s: State, addr: nat, i: nat)
    requires Run(log) == Success(s) && Scan(s.live, addr) == Some(i)
    ensures Lowest(log, addr, s.live[i].Id())
  {
    hide Run, IsLive, Holds;
    RunOrdered(log, s);
    AllocIsUse(log, s, i, addr);
    forall j | IsLive(log, j) && Holds(log, j, addr)
      ensures s.live[i].start < j.start || (j.start == s.live[i].start && j.usage <= s.live[i].usage)
    {
      var m := UseIsAlloc(log, s, j);
      AllocIsUse(log, s, m, addr);
      assert i <= m;
    }
  }

  /** What the lookup of a store finds is the owner. */
  lemma {:induction false} ProbeIsOwner(log: seq<Line>, s: State, addr: nat)
    requires Run(log) == Success(s) && Probe(s.live, addr).Some?
    ensures IsOwner(log, addr, s.live[Probe(s.live, addr).value].Id())
  {
    hide Run, IsLive, Holds, Nearest, Lowest;
    var i := Probe(s.live, addr).value;
    AllocIsUse(log, s, i, addr);
    if Guess(s.live, addr).Some? {
      LastIsNearest(log, s, addr);
    } else {
      FirstIsLowest(log, s, addr, i);
      if k :| Nearest(log, addr, k) && Holds(log, k, addr) {
        NoneNear(log, s, addr, k);
        AllocIsUse(log, s, UpTo(Starts(s.live), addr) - 1, addr);
        assert false;
      }
    }
  }

  // ------------------------------------------------------------------ whole logs

  /** The owners of the lines of a log. */
  ghost predicate OwnersOf(log: seq<Line>, owners: seq<Option<Key>>)
  {
    |owners| == |log| &&
    forall i :: 0 <= i < |log| ==>
      if log[i].Store? then owners[i].Some? && IsOwner(log[..i], log[i].addr, owners[i].value) else owners[i].None?
  }

  lemma {:induction false} OwnersUnique(log: seq<Line>, p: seq<Option<Key>>, q: seq<Option<Key>>)
    requires OwnersOf(log, p) && OwnersOf(log, q)
    ensures p == q
  {
    hide IsOwner;
    forall i | 0 <= i < |log| ensures p[i] == q[i] {
      if log[i].Store? { OwnerUnique(log[..i], log[i].addr, p[i].value, q[i].value); }
    }
  }

  lemma {:induction false} OwnersNext(log: seq<Line>, owners: seq<Option<Key>>, line: Line, owner: Option<Key>)
    requires OwnersOf(log, owners)
    requires if line.Store? then owner.Some? && IsOwner(log, line.addr, owner.value) else owner.None?
    ensures OwnersOf(log + [line], owners + [owner])
  {
    hide IsOwner;
    var more := log + [line];
    assert more[..|log|] == log && forall i :: 0 <= i < |log| ==> more[..i] == log[..i];
  }

  lemma {:induction false} OneOwner(s: State, line: Line, t: State)
    requires Step(s, line) == Success(t)
    ensures t.owners == s.owners + [if line.Store? then Some(s.live[Probe(s.live, line.addr).value].Id()) else None]
  {
  }

  /** The run gives every store to its owner. */
  lemma {:induction false} OwnersFromLog(log: seq<Line>, s: State)
    requires Run(log) == Success(s)
    ensures OwnersOf(log, s.owners)
    decreases |log|
  {
    hide OwnersOf, IsOwner, Step, Probe;
    if log == [] {
      NoOwners();
    } else {
      var before, line, r := LastStep(log, s);
      OwnersFromLog(before, r);
      OneOwner(r, line, s);
      if line.Store? {
        StoreFound(r, line, s);
        ProbeIsOwner(before, r, line.addr);
      }
      OwnersNext(before, r.owners, line, s.owners[|r.owners|]);
    }
  }

  lemma {:induction false} NoOwners()
    ensures OwnersOf([], [])
  {
  }

  lemma {:induction false} StoreFound(s: State, line: Line, t: State)
    requires line.Store? && Step(s, line) == Success(t)
    ensures Probe(s.live, line.addr).Some?
  {
  }

  lemma {:induction false} StepFailsIff(log: seq<Line>, s: State, line: Line)
    requires Run(log) == Success(s)
    ensures Step(s, line).Success? <==> (line.Store? ==> HasHolder(log, line.addr))
  {
    hide HasHolder, Run;
    if line.Store? { HolderIff(log, s, line.addr); }
  }

  lemma {:induction false} AllHeldNext(log: seq<Line>)
    requires log != []
    ensures var n := |log| - 1;
            AllHeld(log) <==> AllHeld(log[..n]) && (log[n].Store? ==> HasHolder(log[..n], log[n].addr))
  {
    hide HasHolder;
    var n := |log| - 1;
    assert forall i :: 0 <= i < n ==> log[..n][..i] == log[..i] && log[..n][i] == log[i];
    if AllHeld(log) {
      forall i | 0 <= i < n && log[..n][i].Store? ensures HasHolder(log[..n][..i], log[..n][i].addr) {
        assert HasHolder(log[..i], log[i].addr);
      }
    }
    if AllHeld(log[..n]) {
      forall i | 0 <= i < n && log[i].Store? ensures HasHolder(log[..i], log[i].addr) {
        assert HasHolder(log[..n][..i], log[..n][i].addr);
      }
    }
  }

  /** A log is accepted if and only if every store has a live use that holds its address. */
  lemma {:induction false} AcceptedIffHeld(log: seq<Line>)
    ensures Run(log).Success? <==> AllHeld(log)
  {
    hide AllHeld, HasHolder, Step;
    if log == [] {
      NothingHeld();
    } else {
      var n := |log| - 1;
      AcceptedIffHeld(log[..n]);
      AllHeldNext(log);
      if Run(log[..n]).Success? { StepFailsIff(log[..n], Run(log[..n]).value, log[n]); }
    }
  }

  lemma {:induction false} NothingHeld()
    ensures AllHeld([])
  {
  }

  /** The lines of an ALLOC and of a FREE block of an address. */
  function AllocBlock(start: nat, size: nat): (log: seq<Line>)
  {
    [AllocStart, Header(start, size), AllocEnd]
  }

  function FreeBlock(start: nat, size: nat): (log: seq<Line>)
  {
    [FreeStart, Header(start, size), FreeEnd]
  }

  /** Outside all blocks, one more ALLOC block. */
  lemma {:induction false} AllocBlockLive(log: seq<Line>, start: nat, size: nat, a: nat)
    requires !InAlloc(log)
    ensures var more := log + AllocBlock(start, size);
            LiveAt(more, a) == LiveAt(log, a) + (if a == start then [UsedIn(log, start) + 1] else []) &&
            UsedIn(more, a) == UsedIn(log, a) + (if a == start then 1 else 0) &&
            !InAlloc(more) && InFree(more) == InFree(log)
  {
    var m1, m2 := log + [AllocStart], log + [AllocStart] + [Header(start, size)];
    var m3 := m2 + [AllocEnd];
    assert m3 == log + AllocBlock(start, size);
    assert m1[..|log|] == log && m2[..|m1|] == m1 && m3[..|m2|] == m2;
    assert InAlloc(m1) && InFree(m1) == InFree(log) && LiveAt(m1, a) == LiveAt(log, a) && UsedIn(m1, a) == UsedIn(log, a);
    assert InAlloc(m2) && InFree(m2) == InFree(log);
    assert UsedIn(m2, a) == UsedIn(log, a) + if a == start then 1 else 0;
  }

  /** And one more FREE block. */
  lemma {:induction false} FreeBlockLive(log: seq<Line>, start: nat, size: nat, a: nat)
    requires !InAlloc(log)
    ensures var more, l := log + FreeBlock(start, size), LiveAt(log, a);
            LiveAt(more, a) == (if a == start && l != [] then l[..|l|-1] else l) &&
            UsedIn(more, a) == UsedIn(log, a) && !InAlloc(more) && !InFree(more)
  {
    var m1, m2 := log + [FreeStart], log + [FreeStart] + [Header(start, size)];
    var m3 := m2 + [FreeEnd];
    assert m3 == log + FreeBlock(start, size);
    assert m1[..|log|] == log && m2[..|m1|] == m1 && m3[..|m2|] == m2;
    assert !InAlloc(m1) && InFree(m1) && LiveAt(m1, a) == LiveAt(log, a) && UsedIn(m1, a) == UsedIn(log, a);
    assert !InAlloc(m2) && UsedIn(m2, a) == UsedIn(m1, a);
  }

  /** A freed block takes no more stores, and the next use of its address gets its own: after
      ALLOC and FREE of a block nothing is live and a store to it is an error; after another
      ALLOC the second use is live and the first is not. */
  lemma {:induction false} FreedTakesNothing(start: nat, size: nat, value: nat)
    ensures var once := AllocBlock(start, size) + FreeBlock(start, size);
            Run(once + [Store(start, value)]).Failure? && LiveAt(once + AllocBlock(start, size), start) == [2]
  {
    hide AllocBlock, FreeBlock, LiveAt, UsedIn, InAlloc, Run;
    var once := AllocBlock(start, size) + FreeBlock(start, size);
    forall a ensures LiveAt(once, a) == [] { NothingLeft(start, size, a); }
    NothingLeft(start, size, start);
    AllocBlockLive(once, start, size, start);
    NobodyTakes(once, start, value);
  }

  lemma {:induction false} NothingLeft(start: nat, size: nat, a: nat)
    ensures var once := AllocBlock(start, size) + FreeBlock(start, size);
            LiveAt(once, a) == [] && !InAlloc(once) && UsedIn(once, start) == 1
  {
    hide AllocBlock, FreeBlock, LiveAt, UsedIn, InAlloc, InFree;
    var alloc := AllocBlock(start, size);
    assert [] + alloc == alloc;
    EmptyLog(a);
    EmptyLog(start);
    AllocBlockLive([], start, size, start);
    FreeBlockLive(alloc, start, size, start);
    AllocBlockLive([], start, size, a);
    FreeBlockLive(alloc, start, size, a);
  }

  lemma {:induction false} EmptyLog(a: nat)
    ensures LiveAt([], a) == [] && UsedIn([], a) == 0 && !InAlloc([])
  {
  }

  lemma {:induction false} NobodyTakes(log: seq<Line>, addr: nat, value: nat)
    requires forall a :: LiveAt(log, a) == []
    ensures Run(log + [Store(addr, value)]).Failure?
  {
    hide LiveAt, Run;
    var more := log + [Store(addr, value)];
    AcceptedIffHeld(more);
    assert more[..|log|] == log && more[|log|].Store?;
  }
}
