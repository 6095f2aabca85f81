/** Runs of the splitter over a log.  `owners` records, for each line read, which allocation
    received it if it was a store; the invariant says that every allocation holds exactly the
    stores it owns, in log order. */
module LogRun {
  import opened Options
  import opened StoreFiles
  import opened LogSplit

  datatype Result<T> = Success(value: T) | Failure

  datatype State = State(live: seq<Alloc>, done: seq<Alloc>, usage: map<nat, nat>,
                         inAlloc: bool, inFree: bool, building: Option<Key>, owners: seq<Option<Key>>)

  const INITIAL: State := State([], [], map[], false, false, None, [])

  function Used(usage: map<nat, nat>, start: nat): (n: nat)
  {
    if start in usage then usage[start] else 0
  }

  // ------------------------------------------------------------------ text

  /** The characters that Python counts as white space. */
  predicate Blank(c: char)
  {
    var n := c as int;
    9 <= n <= 13 || 28 <= n <= 32 || n == 0x85 || n == 0xa0 || n == 0x1680 || 0x2000 <= n <= 0x200a ||
    n == 0x2028 || n == 0x2029 || n == 0x202f || n == 0x205f || n == 0x3000
  }

  function RStrip(s: string): (r: string)
    ensures |r| <= |s|
  {
    if s != "" && Blank(s[|s|-1]) then RStrip(s[..|s|-1]) else s
  }

  // ------------------------------------------------------------------ steps

  /** Position of the live allocation with a key. */
  function Find(live: seq<Alloc>, k: Key): (r: Option<nat>)
    ensures r.Some? ==> r.value < |live| && live[r.value].Id() == k
    ensures r.None? ==> forall i :: 0 <= i < |live| ==> live[i].Id() != k
  {
    if live == [] then None
    else if live[0].Id() == k then Some(0)
    else
      var r := Find(live[1..], k);
      if r.Some? then Some(r.value + 1) else None
  }

  /** A line that is not a store. */
  function Passed(s: State): (t: State)
  {
    s.(owners := s.owners + [None])
  }

  function OnStore(s: State, addr: nat, value: nat): (r: Result<State>)
  {
    var p := Probe(s.live, addr);
    if p.None? then Failure
    else
      var a := s.live[p.value];
      var b := a.(body := a.body + [Row(addr - a.start, value)]);
      Success(s.(live := s.live[p.value := b], owners := s.owners + [Some(a.Id())]))
  }

  /** The allocation being read gets its stack written, if it has one. */
  function OnAllocEnd(s: State): (t: State)
  {
    var p := if s.building.Some? then Find(s.live, s.building.value) else None;
    var live :=
      if p.None? then s.live
      else
        var a := s.live[p.value];
        s.live[p.value := a.(body := a.body + Heads(a.stack))];
    Passed(s.(live := live, inAlloc := false, building := None))
  }

  function OnAlloc(s: State, start: nat, size: nat): (t: State)
  {
    var n := Used(s.usage, start) + 1;
    var a := Alloc(start, size, n, [], []);
    Passed(s.(live := Insert(s.live, a), usage := s.usage[start := n], building := Some(a.Id())))
  }

  function OnFree(s: State, start: nat): (t: State)
  {
    var k := Below(Starts(s.live), start);
    if k < |s.live| && s.live[k].start == start then
      Passed(s.(live := Removed(s.live, k), done := s.done + [s.live[k]]))
    else Passed(s)
  }

  function OnText(s: State, text: string): (t: State)
  {
    var line := RStrip(text);
    var p := if s.inAlloc && s.building.Some? && line != "" then Find(s.live, s.building.value) else None;
    if p.None? then Passed(s)
    else
      var a := s.live[p.value];
      Passed(s.(live := s.live[p.value := a.(stack := a.stack + [line])]))
  }

  /** One line of the log; a store that no live allocation holds is an error. */
  function Step(s: State, line: Line): (r: Result<State>)
  {
    match line
    case Store(addr, value) => OnStore(s, addr, value)
    case AllocStart => Success(Passed(s.(inAlloc := true, building := None)))
    case AllocEnd => Success(OnAllocEnd(s))
    case FreeStart => Success(Passed(s.(inFree := true)))
    case FreeEnd => Success(Passed(s.(inFree := false)))
    case Header(start, size) =>
      Success(if s.inAlloc then OnAlloc(s, start, size) else if s.inFree then OnFree(s, start) else Passed(s))
    case Text(text) => Success(OnText(s, text))
  }

  function Run(log: seq<Line>): (r: Result<State>)
  {
    if log == [] then Success(INITIAL)
    else
      var r := Run(log[..|log|-1]);
      if r.Failure? then Failure else Step(r.value, log[|log|-1])
  }

  /** At the end of the log, what is still live is finished too. */
  function Finished(s: State): (allocs: seq<Alloc>)
  {
    s.done + s.live
  }

  // ------------------------------------------------------------------ what a run keeps

  /** The stores of the log that were given to an allocation. */
  function Received(log: seq<Line>, owners: seq<Option<Key>>, k: Key): (r: seq<FileLine>)
    requires |log| == |owners|
  {
    if log == [] then []
    else
      var n := |log| - 1;
      var rest := Received(log[..n], owners[..n], k);
      if log[n].Store? && owners[n] == Some(k) && log[n].addr >= k.start
      then rest + [Row(log[n].addr - k.start, log[n].value)] else rest
  }

  predicate HoldsItsOwn(a: Alloc, log: seq<Line>, owners: seq<Option<Key>>)
    requires |log| == |owners|
  {
    Rows(a.body) == Received(log, owners, a.Id())
  }

  /** No two finished allocations, and no finished and live one, have the same key. */
  predicate KeysApart(live: seq<Alloc>, done: seq<Alloc>)
  {
    (forall i, j :: 0 <= i < j < |done| ==> done[i].Id() != done[j].Id()) &&
    (forall i, j :: 0 <= i < |done| && 0 <= j < |live| ==> done[i].Id() != live[j].Id())
  }

  predicate Counted(allocs: seq<Alloc>, usage: map<nat, nat>)
  {
    forall a :: a in allocs ==> 1 <= a.usage <= Used(usage, a.start)
  }

  ghost predicate HasBlock(allocs: seq<Alloc>, k: Key, addr: nat)
  {
    exists a :: a in allocs && a.Id() == k && a.Contains(addr)
  }

  /** A line was given to an allocation if and only if it is a store, and then to one that
      holds its address. */
  ghost predicate Owned(line: Line, owner: Option<Key>, allocs: seq<Alloc>)
  {
    if line.Store? then owner.Some? && HasBlock(allocs, owner.value, line.addr) else owner.None?
  }

  ghost predicate OwnersRight(log: seq<Line>, owners: seq<Option<Key>>, allocs: seq<Alloc>)
    requires |log| == |owners|
  {
    forall k :: 0 <= k < |log| ==> Owned(log[k], owners[k], allocs)
  }

  ghost predicate AllHold(allocs: seq<Alloc>, log: seq<Line>, owners: seq<Option<Key>>)
    requires |log| == |owners|
  {
    forall a :: a in allocs ==> HoldsItsOwn(a, log, owners)
  }

  ghost predicate Core(s: State, log: seq<Line>)
  {
    |s.owners| == |log| &&
    Ordered(s.live) && KeysApart(s.live, s.done) && Counted(s.live + s.done, s.usage) &&
    AllHold(s.live + s.done, log, s.owners) && OwnersRight(log, s.owners, s.live + s.done)
  }

  /** The allocation being read is live, and is only read inside an ALLOC block. */
  predicate BuildingLive(s: State)
  {
    s.building.Some? ==> s.inAlloc && Find(s.live, s.building.value).Some?
  }

  ghost predicate Good(s: State, log: seq<Line>)
  {
    Core(s, log) && BuildingLive(s)
  }

  // ------------------------------------------------------------------ the parts, step by step

  /** What a line adds to the stores of an allocation. */
  function Adds(line: Line, owner: Option<Key>, k: Key): (r: seq<FileLine>)
  {
    if line.Store? && owner == Some(k) && line.addr >= k.start
    then [Row(line.addr - k.start, line.value)] else []
  }

  lemma {:induction false} ReceivedStep(log: seq<Line>, owners: seq<Option<Key>>, line: Line, owner: Option<Key>, k: Key)
    requires |log| == |owners|
    ensures Received(log + [line], owners + [owner], k) == Received(log, owners, k) + Adds(line, owner, k)
  {
    assert (log + [line])[..|log|] == log && (owners + [owner])[..|log|] == owners;
  }

  lemma {:induction false} ReceivedNothing(log: seq<Line>, owners: seq<Option<Key>>, k: Key)
    requires |log| == |owners| && forall i :: 0 <= i < |owners| ==> owners[i] != Some(k)
    ensures Received(log, owners, k) == []
  {
    if log != [] {
      var n := |log| - 1;
      assert forall i :: 0 <= i < n ==> owners[..n][i] == owners[i];
      ReceivedNothing(log[..n], owners[..n], k);
    }
  }

  /** Every block of the first list is, up to what it holds, in the second. */
  ghost predicate Kept(was: seq<Alloc>, now: seq<Alloc>)
  {
    forall a :: a in was ==> exists b :: b in now && b.Id() == a.Id() && b.size == a.size
  }

  lemma {:induction false} HasBlockKept(was: seq<Alloc>, now: seq<Alloc>, k: Key, addr: nat)
    requires Kept(was, now) && HasBlock(was, k, addr)
    ensures HasBlock(now, k, addr)
  {
    var a :| a in was && a.Id() == k && a.Contains(addr);
    var b :| b in now && b.Id() == a.Id() && b.size == a.size;
  }

  lemma {:induction false} OwnersStep(log: seq<Line>, owners: seq<Option<Key>>, was: seq<Alloc>, now: seq<Alloc>,
                                      line: Line, owner: Option<Key>)
    requires |log| == |owners| && OwnersRight(log, owners, was) && Kept(was, now) && Owned(line, owner, now)
    ensures OwnersRight(log + [line], owners + [owner], now)
  {
    forall k | 0 <= k < |log| ensures Owned(log[k], owners[k], now) {
      assert Owned(log[k], owners[k], was);
      if log[k].Store? { HasBlockKept(was, now, owners[k].value, log[k].addr); }
    }
  }

  lemma {:induction false} OthersHold(c: Alloc, log: seq<Line>, owners: seq<Option<Key>>, line: Line, owner: Option<Key>)
    requires |log| == |owners| && HoldsItsOwn(c, log, owners) && owner != Some(c.Id())
    ensures HoldsItsOwn(c, log + [line], owners + [owner])
  {
    ReceivedStep(log, owners, line, owner, c.Id());
  }

  /** Rewriting live allocation `i`, which may be the owner of the line. */
  lemma {:induction false} UpdateHolds(s: State, log: seq<Line>, line: Line, owner: Option<Key>, i: nat, b: Alloc)
    requires Core(s, log) && i < |s.live| && b.Id() == s.live[i].Id()
    requires Rows(b.body) == Rows(s.live[i].body) + Adds(line, owner, b.Id())
    requires owner.Some? ==> owner.value == b.Id()
    ensures AllHold(s.live[i := b] + s.done, log + [line], s.owners + [owner])
  {
    var live := s.live[i := b];
    forall c | c in live + s.done ensures HoldsItsOwn(c, log + [line], s.owners + [owner]) {
      if c in s.done {
        assert c in s.live + s.done;
        OthersHold(c, log, s.owners, line, owner);
      } else {
        var j :| 0 <= j < |live| && live[j] == c;
        assert s.live[j] in s.live + s.done;
        if j == i {
          ReceivedStep(log, s.owners, line, owner, b.Id());
        } else {
          OthersHold(c, log, s.owners, line, owner);
        }
      }
    }
  }

  lemma {:induction false} UpdateKept(live: seq<Alloc>, done: seq<Alloc>, i: nat, b: Alloc)
    requires i < |live| && b.Id() == live[i].Id() && b.size == live[i].size
    ensures Kept(live + done, live[i := b] + done)
  {
    var now := live[i := b] + done;
    forall a | a in live + done ensures exists c :: c in now && c.Id() == a.Id() && c.size == a.size {
      var j :| 0 <= j < |live + done| && (live + done)[j] == a;
      assert now[j] in now;
    }
  }

  lemma {:induction false} UpdateCounted(s: State, i: nat, b: Alloc)
    requires Counted(s.live + s.done, s.usage) && i < |s.live| && b.Id() == s.live[i].Id()
    ensures Counted(s.live[i := b] + s.done, s.usage)
  {
    assert s.live[i] in s.live + s.done;
    forall c | c in s.live[i := b] + s.done ensures 1 <= c.usage <= Used(s.usage, c.start) {
      assert c == b || c in s.live + s.done;
    }
  }

  lemma {:induction false} UpdateKeeps(s: State, log: seq<Line>, line: Line, owner: Option<Key>, i: nat, b: Alloc)
    requires Core(s, log) && i < |s.live| && b.Id() == s.live[i].Id() && b.size == s.live[i].size
    requires Rows(b.body) == Rows(s.live[i].body) + Adds(line, owner, b.Id())
    requires owner.Some? ==> owner.value == b.Id()
    requires if line.Store? then owner.Some? && b.Contains(line.addr) else owner.None?
    ensures Core(s.(live := s.live[i := b], owners := s.owners + [owner]), log + [line])
  {
    var live := s.live[i := b];
    UpdateOrdered(s.live, i, b);
    UpdateCounted(s, i, b);
    UpdateHolds(s, log, line, owner, i, b);
    UpdateKept(s.live, s.done, i, b);
    assert live[i] in live + s.done;
    OwnersStep(log, s.owners, s.live + s.done, live + s.done, line, owner);
  }

  /** A line that changes no allocation. */
  lemma {:induction false} PassedKeeps(s: State, log: seq<Line>, line: Line)
    requires Core(s, log) && !line.Store?
    ensures Core(Passed(s), log + [line])
  {
    var all := s.live + s.done;
    forall c | c in all ensures HoldsItsOwn(c, log + [line], s.owners + [None]) {
      OthersHold(c, log, s.owners, line, None);
    }
    OwnersStep(log, s.owners, all, all, line, None);
  }

  lemma {:induction false} FindUpdated(live: seq<Alloc>, i: nat, b: Alloc, k: Key)
    requires i < |live| && b.Id() == live[i].Id()
    ensures Find(live, k).Some? <==> Find(live[i := b], k).Some?
  {
    var now := live[i := b];
    if Find(live, k).Some? { assert now[Find(live, k).value].Id() == k; }
    if Find(now, k).Some? { assert live[Find(now, k).value].Id() == k; }
  }

  lemma {:induction false} StoreRow(a: Alloc, addr: nat, value: nat)
    requires a.Contains(addr)
    ensures var row := [Row(addr - a.start, value)];
            Rows(a.body + row) == Rows(a.body) + Adds(Store(addr, value), Some(a.Id()), a.Id())
  {
    var row := [Row(addr - a.start, value)];
    RowsConcat(a.body, row);
    assert row[..0] == [];
  }

  lemma {:induction false} StoreCore(s: State, log: seq<Line>, addr: nat, value: nat)
    requires Core(s, log) && OnStore(s, addr, value).Success?
    ensures Core(OnStore(s, addr, value).value, log + [Store(addr, value)])
  {
    hide Core, Probe, Rows, Adds;
    var i := Probe(s.live, addr).value;
    var a := s.live[i];
    StoreRow(a, addr, value);
    UpdateKeeps(s, log, Store(addr, value), Some(a.Id()), i, a.(body := a.body + [Row(addr - a.start, value)]));
  }

  lemma {:induction false} StoreBuilding(s: State, addr: nat, value: nat)
    requires BuildingLive(s) && OnStore(s, addr, value).Success?
    ensures BuildingLive(OnStore(s, addr, value).value)
  {
    var i := Probe(s.live, addr).value;
    var a := s.live[i];
    if s.building.Some? { FindUpdated(s.live, i, a.(body := a.body + [Row(addr - a.start, value)]), s.building.value); }
  }

  lemma {:induction false} StoreKeeps(s: State, log: seq<Line>, addr: nat, value: nat)
    requires Good(s, log) && OnStore(s, addr, value).Success?
    ensures Good(OnStore(s, addr, value).value, log + [Store(addr, value)])
  {
    hide Core, BuildingLive, OnStore;
    StoreCore(s, log, addr, value);
    StoreBuilding(s, addr, value);
  }

  lemma {:induction false} TextCore(s: State, log: seq<Line>, text: string)
    requires Core(s, log)
    ensures Core(OnText(s, text), log + [Text(text)])
  {
    if OnText(s, text) == Passed(s) {
      PassedKeeps(s, log, Text(text));
    } else {
      var i := Find(s.live, s.building.value).value;
      UpdateKeeps(s, log, Text(text), None, i, s.live[i].(stack := s.live[i].stack + [RStrip(text)]));
    }
  }

  lemma {:induction false} TextBuilding(s: State, text: string)
    requires BuildingLive(s)
    ensures BuildingLive(OnText(s, text))
  {
    if OnText(s, text) != Passed(s) {
      var i := Find(s.live, s.building.value).value;
      FindUpdated(s.live, i, s.live[i].(stack := s.live[i].stack + [RStrip(text)]), s.building.value);
    }
  }

  lemma {:induction false} TextKeeps(s: State, log: seq<Line>, text: string)
    requires Good(s, log)
    ensures Good(OnText(s, text), log + [Text(text)])
  {
    hide Core, BuildingLive, OnText;
    TextCore(s, log, text);
    TextBuilding(s, text);
  }

  lemma {:induction false} HeadsAddNoRows(body: seq<FileLine>, stack: seq<string>)
    ensures Rows(body + Heads(stack)) == Rows(body)
  {
    RowsConcat(body, Heads(stack));
    RowsOfHeads(stack);
  }

  lemma {:induction false} AllocEndCore(s: State, log: seq<Line>, i: nat)
    requires Core(s, log) && s.building.Some? && Find(s.live, s.building.value) == Some(i)
    ensures Core(OnAllocEnd(s), log + [AllocEnd])
  {
    hide Rows, Heads, Find;
    var a := s.live[i];
    HeadsAddNoRows(a.body, a.stack);
    UpdateKeeps(s, log, AllocEnd, None, i, a.(body := a.body + Heads(a.stack)));
  }

  lemma {:induction false} AllocEndKeeps(s: State, log: seq<Line>)
    requires Good(s, log)
    ensures Good(OnAllocEnd(s), log + [AllocEnd])
  {
    if s.building.Some? {
      AllocEndCore(s, log, Find(s.live, s.building.value).value);
    } else {
      PassedKeeps(s, log, AllocEnd);
    }
  }

  lemma {:induction false} InsertMembers(live: seq<Alloc>, a: Alloc, x: Alloc)
    ensures x in Insert(live, a) <==> x == a || x in live
  {
    var k := Below(Starts(live), a.start);
    assert live == live[..k] + live[k..];
  }

  /** No line so far belongs to an allocation that is only made now. */
  lemma {:induction false} FreshKey(s: State, log: seq<Line>, start: nat)
    requires Core(s, log)
    ensures var k := Key(start, Used(s.usage, start) + 1);
            Received(log, s.owners, k) == [] && forall a :: a in s.live + s.done ==> a.Id() != k
  {
    var k := Key(start, Used(s.usage, start) + 1);
    forall i | 0 <= i < |s.owners| ensures s.owners[i] != Some(k) {
      assert Owned(log[i], s.owners[i], s.live + s.done);
    }
    ReceivedNothing(log, s.owners, k);
  }

  lemma {:induction false} InsertApart(s: State, a: Alloc)
    requires KeysApart(s.live, s.done) && forall c :: c in s.live + s.done ==> c.Id() != a.Id()
    ensures KeysApart(Insert(s.live, a), s.done)
  {
    var live := Insert(s.live, a);
    forall i, j | 0 <= i < |s.done| && 0 <= j < |live| ensures s.done[i].Id() != live[j].Id() {
      InsertMembers(s.live, a, live[j]);
      assert s.done[i] in s.live + s.done;
      if live[j] != a {
        var l :| 0 <= l < |s.live| && s.live[l] == live[j];
      }
    }
  }

  lemma {:induction false} InsertMembership(s: State, a: Alloc)
    ensures var was, now := s.live + s.done, Insert(s.live, a) + s.done;
            (forall c :: c in now <==> c == a || c in was) && Kept(was, now)
  {
    var was, now := s.live + s.done, Insert(s.live, a) + s.done;
    forall c ensures c in now <==> c == a || c in was { InsertMembers(s.live, a, c); }
  }

  lemma {:induction false} InsertCounted(s: State, a: Alloc)
    requires Counted(s.live + s.done, s.usage) && a.usage == Used(s.usage, a.start) + 1
    ensures Counted(Insert(s.live, a) + s.done, s.usage[a.start := a.usage])
  {
    InsertMembership(s, a);
    forall c | c in Insert(s.live, a) + s.done
      ensures 1 <= c.usage <= Used(s.usage[a.start := a.usage], c.start)
    {
      assert c == a || c in s.live + s.done;
    }
  }

  lemma {:induction false} InsertHolds(s: State, log: seq<Line>, line: Line, a: Alloc)
    requires |log| == |s.owners| && AllHold(s.live + s.done, log, s.owners) && HoldsItsOwn(a, log, s.owners)
    ensures AllHold(Insert(s.live, a) + s.done, log + [line], s.owners + [None])
  {
    InsertMembership(s, a);
    forall c | c in Insert(s.live, a) + s.done ensures HoldsItsOwn(c, log + [line], s.owners + [None]) {
      assert c == a || c in s.live + s.done;
      OthersHold(c, log, s.owners, line, None);
    }
  }

  lemma {:induction false} NewerThanLive(s: State, start: nat)
    requires Counted(s.live + s.done, s.usage)
    ensures forall i :: 0 <= i < |s.live| && s.live[i].start == start ==> s.live[i].usage < Used(s.usage, start) + 1
  {
    forall i | 0 <= i < |s.live| && s.live[i].start == start ensures s.live[i].usage < Used(s.usage, start) + 1 {
      assert s.live[i] in s.live + s.done;
    }
  }

  lemma {:induction false} InsertIndex(s: State, a: Alloc)
    requires Ordered(s.live) && KeysApart(s.live, s.done) && Counted(s.live + s.done, s.usage)
    requires a.usage == Used(s.usage, a.start) + 1 && forall c :: c in s.live + s.done ==> c.Id() != a.Id()
    ensures Ordered(Insert(s.live, a)) && KeysApart(Insert(s.live, a), s.done)
  {
    NewerThanLive(s, a.start);
    InsertOrdered(s.live, a);
    InsertApart(s, a);
  }

  lemma {:induction false} InsertOwners(s: State, log: seq<Line>, line: Line, a: Alloc)
    requires |log| == |s.owners| && !line.Store? && OwnersRight(log, s.owners, s.live + s.done)
    ensures OwnersRight(log + [line], s.owners + [None], Insert(s.live, a) + s.done)
  {
    InsertMembership(s, a);
    OwnersStep(log, s.owners, s.live + s.done, Insert(s.live, a) + s.done, line, None);
  }

  lemma {:induction false} AllocKeeps(s: State, t: State, log: seq<Line>, line: Line, a: Alloc)
    requires Core(s, log) && !line.Store? && a.usage == Used(s.usage, a.start) + 1 && a.body == []
    requires t.live == Insert(s.live, a) && t.usage == s.usage[a.start := a.usage]
    requires t.done == s.done && t.owners == s.owners + [None]
    ensures Core(t, log + [line])
  {
    hide Ordered, KeysApart, Counted, AllHold, OwnersRight, Insert, Used;
    FreshKey(s, log, a.start);
    InsertIndex(s, a);
    InsertCounted(s, a);
    InsertHolds(s, log, line, a);
    InsertOwners(s, log, line, a);
  }

  lemma {:induction false} RemovedMembers(live: seq<Alloc>, k: nat, x: Alloc)
    requires k < |live|
    ensures x in live <==> x == live[k] || x in Removed(live, k)
  {
    assert live == live[..k] + [live[k]] + live[k+1..];
  }

  lemma {:induction false} RemovedApart(live: seq<Alloc>, done: seq<Alloc>, k: nat)
    requires Ordered(live) && KeysApart(live, done) && k < |live|
    ensures KeysApart(Removed(live, k), done + [live[k]])
  {
    var rest := Removed(live, k);
    forall j | 0 <= j < |rest| ensures rest[j].Id() != live[k].Id() {
      assert rest[j] == live[if j < k then j else j + 1];
    }
    forall i, j | 0 <= i < |done| && 0 <= j < |rest| ensures done[i].Id() != rest[j].Id() {
      assert rest[j] == live[if j < k then j else j + 1];
    }
  }

  lemma {:induction false} FreeKeeps(s: State, log: seq<Line>, line: Line)
    requires Core(s, log) && line.Header?
    ensures Core(OnFree(s, line.start), log + [line])
  {
    var k, t := Below(Starts(s.live), line.start), OnFree(s, line.start);
    if t == Passed(s) {
      PassedKeeps(s, log, line);
    } else {
      var was, now := s.live + s.done, t.live + t.done;
      RemovedOrdered(s.live, k);
      RemovedApart(s.live, s.done, k);
      forall c ensures c in now <==> c in was { RemovedMembers(s.live, k, c); }
      forall c | c in now ensures HoldsItsOwn(c, log + [line], t.owners) {
        OthersHold(c, log, s.owners, line, None);
      }
      OwnersStep(log, s.owners, was, now, line, None);
    }
  }

  lemma {:induction false} FindInserted(live: seq<Alloc>, a: Alloc)
    ensures Find(Insert(live, a), a.Id()).Some?
  {
    var k := Below(Starts(live), a.start);
    assert Insert(live, a)[k] == a;
  }

  /** Only the allocations matter to the core of the invariant. */
  lemma {:induction false} FlagsFree(s: State, t: State, log: seq<Line>)
    requires Core(s, log) && t.live == s.live && t.done == s.done && t.usage == s.usage && t.owners == s.owners
    ensures Core(t, log)
  {
  }

  lemma {:induction false} DelimiterKeeps(s: State, t: State, log: seq<Line>, line: Line)
    requires Core(s, log) && !line.Store?
    requires t.live == s.live && t.done == s.done && t.usage == s.usage && t.owners == s.owners + [None]
    ensures Core(t, log + [line])
  {
    PassedKeeps(s, log, line);
    FlagsFree(Passed(s), t, log + [line]);
  }

  lemma {:induction false} AllocHeaderKeeps(s: State, t: State, log: seq<Line>, start: nat, size: nat)
    requires Core(s, log) && s.inAlloc && t == OnAlloc(s, start, size)
    ensures Core(t, log + [Header(start, size)]) && BuildingLive(t)
  {
    var a := Alloc(start, size, Used(s.usage, start) + 1, [], []);
    AllocKeeps(s, t, log, Header(start, size), a);
    FindInserted(s.live, a);
  }

  lemma {:induction false} HeaderKeeps(s: State, t: State, log: seq<Line>, start: nat, size: nat)
    requires Good(s, log) && Step(s, Header(start, size)) == Success(t)
    ensures Good(t, log + [Header(start, size)])
  {
    if s.inAlloc {
      AllocHeaderKeeps(s, t, log, start, size);
    } else if s.inFree {
      FreeKeeps(s, log, Header(start, size));
    } else {
      PassedKeeps(s, log, Header(start, size));
    }
  }

  /** Every line keeps the invariant. */
  lemma {:induction false} StepKeeps(s: State, log: seq<Line>, line: Line)
    requires Good(s, log) && Step(s, line).Success?
    ensures Good(Step(s, line).value, log + [line])
  {
    match line
    case Store(addr, value) => StoreKeeps(s, log, addr, value);
    case AllocEnd => AllocEndKeeps(s, log);
    case Header(start, size) => HeaderKeeps(s, Step(s, line).value, log, start, size);
    case Text(text) => TextKeeps(s, log, text);
    case _ => DelimiterKeeps(s, Step(s, line).value, log, line);
  }

  lemma {:induction false} GoodAtStart()
    ensures Good(INITIAL, [])
  {
  }

  lemma {:induction false} NextGood(before: seq<Line>, line: Line, r: State, s: State)
    requires Good(r, before) && Step(r, line) == Success(s)
    ensures Good(s, before + [line])
  {
    StepKeeps(r, before, line);
  }

  lemma {:induction false} LastStep(log: seq<Line>, s: State) returns (before: seq<Line>, line: Line, r: State)
    requires log != [] && Run(log) == Success(s)
    ensures log == before + [line] && |before| == |log| - 1
    ensures Run(before) == Success(r) && Step(r, line) == Success(s)
  {
    before, line := log[..|log|-1], log[|log|-1];
    r := Run(before).value;
  }

  lemma {:induction false} RunKeeps(log: seq<Line>, s: State)
    requires Run(log) == Success(s)
    ensures Good(s, log)
    decreases |log|
  {
    if log == [] {
      GoodAtStart();
    } else {
      var before, line, r := LastStep(log, s);
      RunKeeps(before, r);
      NextGood(before, line, r, s);
    }
  }

  /** Of every accepted log: each store, and no other line, is given to one allocation, which
      holds its address; each allocation has exactly the stores it was given, in log order;
      and no two allocations have the same name. */
  lemma {:induction false} EveryStoreOnce(log: seq<Line>)
    requires Run(log).Success?
    ensures var s := Run(log).value;
            var all := Finished(s);
            |s.owners| == |log| &&
            (forall k :: 0 <= k < |log| ==> Owned(log[k], s.owners[k], all)) &&
            (forall a :: a in all ==> Rows(a.body) == Received(log, s.owners, a.Id())) &&
            (forall i, j :: 0 <= i < j < |all| ==> all[i].Id() != all[j].Id())
  {
    var s := Run(log).value;
    RunKeeps(log, s);
    var all, was := Finished(s), s.live + s.done;
    forall k | 0 <= k < |log| ensures Owned(log[k], s.owners[k], all) {
      assert Owned(log[k], s.owners[k], was);
      if log[k].Store? { HasBlockKept(was, all, s.owners[k].value, log[k].addr); }
    }
    forall a | a in all ensures HoldsItsOwn(a, log, s.owners) { assert a in was; }
  }
}
