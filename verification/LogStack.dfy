/** The allocations of a log: one for each header in an ALLOC block, with the stack printed in
    the block.  In well-formed logs the stack comes first in the allocation's file. */
module LogStack {
  import opened Options
  import opened StoreFiles
  import opened LogSplit
  import opened LogRun

  /** Between ALLOC START and ALLOC END. */
  predicate InAlloc(log: seq<Line>)
  {
    if log == [] then false
    else
      var last := log[|log|-1];
      last.AllocStart? || (!last.AllocEnd? && InAlloc(log[..|log|-1]))
  }

  /** How often an address was the start of an allocation. */
  function UsedIn(log: seq<Line>, start: nat): (n: nat)
  {
    if log == [] then 0
    else
      var before, last := log[..|log|-1], log[|log|-1];
      UsedIn(before, start) + if last.Header? && last.start == start && InAlloc(before) then 1 else 0
  }

  /** The allocation whose block is being read: its header was seen, its end was not. */
  function Current(log: seq<Line>): (k: Option<Key>)
  {
    if log == [] then None
    else
      var before, last := log[..|log|-1], log[|log|-1];
      if last.AllocStart? || last.AllocEnd? then None
      else if last.Header? && InAlloc(before) then Some(Key(last.start, UsedIn(log, last.start)))
      else Current(before)
  }

  predicate Reading(log: seq<Line>)
  {
    Current(log).Some?
  }

  /** The text of an allocation's block, right-stripped, without blank lines. */
  function StackOf(log: seq<Line>, k: Key): (stack: seq<string>)
  {
    if log == [] then []
    else
      var before, last := log[..|log|-1], log[|log|-1];
      var rest := StackOf(before, k);
      if last.Text? && Current(before) == Some(k) && RStrip(last.text) != "" then rest + [RStrip(last.text)] else rest
  }

  /** The size given in its header. */
  function SizeOf(log: seq<Line>, k: Key): (n: nat)
  {
    if log == [] then 0
    else
      var before, last := log[..|log|-1], log[|log|-1];
      if last.Header? && InAlloc(before) && k == Key(last.start, UsedIn(log, last.start)) then last.size
      else SizeOf(before, k)
  }

  /** Nothing but text and the markers of a block interrupts the reading of an allocation. */
  predicate Interrupts(line: Line)
  {
    line.Store? || line.Header? || line.AllocStart?
  }

  predicate WellFormed(log: seq<Line>)
  {
    !Reading(log) && forall k :: 0 <= k < |log| && Reading(log[..k]) ==> !Interrupts(log[k])
  }

  /** The same without the demand that the last block be complete. */
  predicate SoFar(log: seq<Line>)
  {
    log == [] || (SoFar(log[..|log|-1]) && (Reading(log[..|log|-1]) ==> !Interrupts(log[|log|-1])))
  }

  lemma {:induction false} WellFormedSoFar(log: seq<Line>, n: nat)
    requires WellFormed(log) && n <= |log|
    ensures SoFar(log[..n])
  {
    if n > 0 {
      WellFormedSoFar(log, n - 1);
      assert log[..n][..n-1] == log[..n-1];
    }
  }

  predicate StackFirst(a: Alloc)
  {
    a.body == Heads(a.stack) + Rows(a.body)
  }

  /** Everything but the allocation being read has its stack in front; that one has nothing
      written yet. */
  ghost predicate StacksRight(s: State)
  {
    (forall a :: a in s.done ==> StackFirst(a)) &&
    (forall a :: a in s.live ==> if s.building == Some(a.Id()) then a.body == [] else StackFirst(a))
  }

  lemma {:induction false} StackFirstAppend(a: Alloc, row: FileLine)
    requires StackFirst(a) && row.Row?
    ensures StackFirst(a.(body := a.body + [row]))
  {
    RowsConcat(a.body, [row]);
    assert [row][..0] == [];
    assert Rows([row]) == [row];
  }

  lemma {:induction false} StackFirstWritten(a: Alloc)
    requires a.body == []
    ensures StackFirst(a.(body := a.body + Heads(a.stack)))
  {
    RowsOfHeads(a.stack);
    assert [] + Heads(a.stack) == Heads(a.stack);
  }

  /** What a step does to one live allocation. */
  lemma {:induction false} StoreStacks(s: State, addr: nat, value: nat, t: State)
    requires StacksRight(s) && s.building.None? && OnStore(s, addr, value) == Success(t)
    ensures StacksRight(t)
  {
    hide Probe, StackFirst;
    var i := Probe(s.live, addr).value;
    var a := s.live[i];
    StackFirstAppend(a, Row(addr - a.start, value));
    forall c | c in t.live ensures StackFirst(c) {
      assert c == t.live[i] || c in s.live;
    }
  }

  lemma {:induction false} AllocEndStacks(s: State, t: State)
    requires StacksRight(s) && BuildingLive(s) && Ordered(s.live) && t == OnAllocEnd(s)
    ensures StacksRight(t)
  {
    if s.building.Some? {
      var i := Find(s.live, s.building.value).value;
      var a := s.live[i];
      StackFirstWritten(a);
      forall c | c in t.live ensures StackFirst(c) {
        var j :| 0 <= j < |t.live| && t.live[j] == c;
        if j != i { assert s.live[j].Id() != a.Id(); }
      }
    }
  }

  lemma {:induction false} TextStacks(s: State, text: string, t: State)
    requires StacksRight(s) && t == OnText(s, text)
    ensures StacksRight(t)
  {
    if t != Passed(s) {
      var i := Find(s.live, s.building.value).value;
      forall c | c in t.live ensures if t.building == Some(c.Id()) then c.body == [] else StackFirst(c) {
        assert c == t.live[i] || c in s.live;
        assert s.live[i] in s.live;
      }
    }
  }

  lemma {:induction false} AllocStacks(s: State, log: seq<Line>, start: nat, size: nat, t: State)
    requires StacksRight(s) && s.building.None? && Core(s, log) && t == OnAlloc(s, start, size)
    ensures StacksRight(t)
  {
    var a := Alloc(start, size, Used(s.usage, start) + 1, [], []);
    FreshKey(s, log, start);
    forall c | c in t.live ensures if t.building == Some(c.Id()) then c.body == [] else StackFirst(c) {
      InsertMembers(s.live, a, c);
      if c != a { assert c in s.live + s.done; }
    }
  }

  lemma {:induction false} FreeStacks(s: State, start: nat, t: State)
    requires StacksRight(s) && s.building.None? && t == OnFree(s, start)
    ensures StacksRight(t)
  {
    if t != Passed(s) {
      var k := Below(Starts(s.live), start);
      forall c | c in t.live ensures StackFirst(c) { RemovedMembers(s.live, k, c); }
      assert s.live[k] in s.live;
    }
  }

  lemma {:induction false} StepStacks(s: State, log: seq<Line>, line: Line, t: State)
    requires StacksRight(s) && Good(s, log) && Step(s, line) == Success(t)
    requires s.building.Some? ==> !Interrupts(line)
    ensures StacksRight(t)
  {
    match line
    case Store(addr, value) => StoreStacks(s, addr, value, t);
    case AllocEnd => AllocEndStacks(s, t);
    case Header(start, size) =>
      if s.inAlloc {
        AllocStacks(s, log, start, size, t);
      } else if s.inFree {
        FreeStacks(s, start, t);
      }
    case Text(text) => TextStacks(s, text, t);
    case _ =>
  }

  /** The splitter's flags and counters say of the log what they should. */
  ghost predicate Follows(s: State, log: seq<Line>)
  {
    s.inAlloc == InAlloc(log) && s.building == Current(log) && forall st :: Used(s.usage, st) == UsedIn(log, st)
  }

  lemma {:induction false} FlagsFollow(s: State, log: seq<Line>, line: Line, t: State)
    requires Follows(s, log) && BuildingLive(s) && Step(s, line) == Success(t)
    ensures Follows(t, log + [line])
  {
    assert (log + [line])[..|log|] == log;
    forall st ensures Used(t.usage, st) == UsedIn(log + [line], st) { }
  }

  lemma {:induction false} RunFollows(log: seq<Line>, s: State)
    requires Run(log) == Success(s)
    ensures Follows(s, log)
    decreases |log|
  {
    if log != [] {
      var before, line, r := LastStep(log, s);
      RunFollows(before, r);
      RunKeeps(before, r);
      FlagsFollow(r, before, line, s);
    }
  }

  lemma {:induction false} RunStacks(log: seq<Line>, s: State)
    requires SoFar(log) && Run(log) == Success(s)
    ensures StacksRight(s)
    decreases |log|
  {
    if log != [] {
      var before, line, r := LastStep(log, s);
      assert log[..|log|-1] == before && log[|log|-1] == line;
      RunStacks(before, r);
      RunKeeps(before, r);
      RunFollows(before, r);
      StepStacks(r, before, line, s);
    }
  }

  /** After a well-formed log, every allocation's file is its stack and then its stores. */
  lemma {:induction false} StacksComeFirst(log: seq<Line>, s: State)
    requires WellFormed(log) && Run(log) == Success(s)
    ensures forall a :: a in Finished(s) ==> a.body == Heads(a.stack) + Rows(a.body)
  {
    WellFormedSoFar(log, |log|);
    assert log[..|log|] == log;
    RunStacks(log, s);
    RunFollows(log, s);
    assert s.building.None?;
    forall a | a in Finished(s) ensures StackFirst(a) {
      assert a in s.done || a in s.live;
    }
  }

  // ------------------------------------------------------------------ one allocation per header

  /** Stack and size are those that the log gives for this use of the address. */
  predicate Described(a: Alloc, log: seq<Line>)
  {
    a.stack == StackOf(log, a.Id()) && a.size == SizeOf(log, a.Id())
  }

  ghost predicate AllDescribed(s: State, log: seq<Line>)
  {
    forall a :: a in s.live + s.done ==> Described(a, log)
  }

  lemma {:induction false} UsedStep(log: seq<Line>, line: Line, start: nat)
    ensures UsedIn(log + [line], start)
            == UsedIn(log, start) + if line.Header? && line.start == start && InAlloc(log) then 1 else 0
  {
    assert (log + [line])[..|log|] == log;
  }

  lemma {:induction false} DescribedStep(log: seq<Line>, line: Line, k: Key)
    ensures StackOf(log + [line], k) == StackOf(log, k)
            + if line.Text? && Current(log) == Some(k) && RStrip(line.text) != "" then [RStrip(line.text)] else []
    ensures SizeOf(log + [line], k)
            == if line.Header? && InAlloc(log) && k == Key(line.start, UsedIn(log, line.start) + 1) then line.size
               else SizeOf(log, k)
  {
    assert (log + [line])[..|log|] == log;
    if line.Header? { UsedStep(log, line, line.start); }
  }

  lemma {:induction false} CurrentIsUsed(log: seq<Line>)
    requires Current(log).Some?
    ensures Current(log).value.usage <= UsedIn(log, Current(log).value.start)
  {
    var before, last := log[..|log|-1], log[|log|-1];
    if !(last.Header? && InAlloc(before)) { CurrentIsUsed(before); }
  }

  lemma {:induction false} NoStackYet(log: seq<Line>, k: Key)
    requires k.usage > UsedIn(log, k.start)
    ensures StackOf(log, k) == []
  {
    if log != [] {
      var before := log[..|log|-1];
      NoStackYet(before, k);
      if Current(before).Some? { CurrentIsUsed(before); }
    }
  }

  /** Same key, size and stack. */
  predicate SameBlock(a: Alloc, b: Alloc)
  {
    a.Id() == b.Id() && a.size == b.size && a.stack == b.stack
  }

  /** Every block of the second list is in the first. */
  ghost predicate SameBlocks(was: seq<Alloc>, now: seq<Alloc>)
  {
    forall b :: b in now ==> exists a :: a in was && SameBlock(a, b)
  }

  /** A line that is neither text nor a header inside an ALLOC block describes nothing new. */
  lemma {:induction false} DescribedKept(s: State, t: State, log: seq<Line>, line: Line)
    requires AllDescribed(s, log) && (line.Text? ==> Current(log).None? || RStrip(line.text) == "")
    requires line.Header? ==> !InAlloc(log)
    requires SameBlocks(s.live + s.done, t.live + t.done)
    ensures AllDescribed(t, log + [line])
  {
    forall b | b in t.live + t.done ensures Described(b, log + [line]) {
      var a :| a in s.live + s.done && SameBlock(a, b);
      DescribedStep(log, line, b.Id());
    }
  }

  lemma {:induction false} UpdateSame(live: seq<Alloc>, done: seq<Alloc>, i: nat, x: Alloc)
    requires i < |live| && SameBlock(live[i], x)
    ensures SameBlocks(live + done, live[i := x] + done)
  {
    var was, now := live + done, live[i := x] + done;
    forall c | c in now ensures exists a :: a in was && SameBlock(a, c) {
      var j :| 0 <= j < |now| && now[j] == c;
      assert was[j] in was && SameBlock(was[j], c);
    }
  }

  lemma {:induction false} NothingSame(was: seq<Alloc>)
    ensures SameBlocks(was, was)
  {
    forall c | c in was ensures exists a :: a in was && SameBlock(a, c) { assert SameBlock(c, c); }
  }

  lemma {:induction false} FreeSame(s: State, start: nat, t: State)
    requires t == OnFree(s, start)
    ensures SameBlocks(s.live + s.done, t.live + t.done)
  {
    var k := Below(Starts(s.live), start);
    forall c | c in t.live + t.done ensures exists a :: a in s.live + s.done && SameBlock(a, c) {
      if t != Passed(s) { RemovedMembers(s.live, k, c); }
      assert c in s.live + s.done && SameBlock(c, c);
    }
  }

  lemma {:induction false} StoreSame(s: State, addr: nat, value: nat, t: State)
    requires OnStore(s, addr, value) == Success(t)
    ensures SameBlocks(s.live + s.done, t.live + t.done)
  {
    var i := Probe(s.live, addr).value;
    UpdateSame(s.live, s.done, i, t.live[i]);
  }

  lemma {:induction false} AllocEndSame(s: State, t: State)
    requires t == OnAllocEnd(s)
    ensures SameBlocks(s.live + s.done, t.live + t.done)
  {
    if s.building.Some? && Find(s.live, s.building.value).Some? {
      var i := Find(s.live, s.building.value).value;
      UpdateSame(s.live, s.done, i, t.live[i]);
    } else {
      NothingSame(s.live + s.done);
    }
  }

  /** Lines that describe no allocation. */
  predicate Quiet(s: State, line: Line)
  {
    (line.Header? ==> !s.inAlloc) && (line.Text? ==> s.building.None? || RStrip(line.text) == "")
  }

  lemma {:induction false} QuietSame(s: State, line: Line, t: State)
    requires Quiet(s, line) && Step(s, line) == Success(t)
    ensures SameBlocks(s.live + s.done, t.live + t.done)
  {
    match line
    case Store(addr, value) => StoreSame(s, addr, value, t);
    case AllocEnd => AllocEndSame(s, t);
    case Header(start, size) =>
      if s.inFree {
        FreeSame(s, start, t);
      } else {
        NothingSame(s.live + s.done);
      }
    case _ => NothingSame(s.live + s.done);
  }

  lemma {:induction false} TextDescribed(s: State, t: State, log: seq<Line>, text: string)
    requires AllDescribed(s, log) && Core(s, log) && BuildingLive(s) && s.building == Current(log)
    requires Current(log).Some? && RStrip(text) != "" && t == OnText(s, text)
    ensures AllDescribed(t, log + [Text(text)])
  {
    var k := s.building.value;
    var i := Find(s.live, k).value;
    var b := s.live[i].(stack := s.live[i].stack + [RStrip(text)]);
    assert t.live == s.live[i := b] && s.live[i] in s.live + s.done;
    forall c | c in t.live + t.done ensures Described(c, log + [Text(text)]) {
      DescribedStep(log, Text(text), c.Id());
      if c in s.done {
        assert c in s.live + s.done;
      } else {
        var j :| 0 <= j < |t.live| && t.live[j] == c;
        assert s.live[j] in s.live + s.done;
      }
    }
  }

  lemma {:induction false} AllocDescribed(s: State, t: State, log: seq<Line>, start: nat, size: nat)
    requires AllDescribed(s, log) && Core(s, log) && InAlloc(log) && Used(s.usage, start) == UsedIn(log, start)
    requires t == OnAlloc(s, start, size)
    ensures AllDescribed(t, log + [Header(start, size)])
  {
    var n := UsedIn(log, start) + 1;
    var a := Alloc(start, size, n, [], []);
    FreshKey(s, log, start);
    NoStackYet(log, a.Id());
    InsertMembership(s, a);
    forall c | c in t.live + t.done ensures Described(c, log + [Header(start, size)]) {
      DescribedStep(log, Header(start, size), c.Id());
      assert c == a || c in s.live + s.done;
    }
  }

  lemma {:induction false} QuietDescribed(s: State, t: State, log: seq<Line>, line: Line)
    requires AllDescribed(s, log) && s.inAlloc == InAlloc(log) && s.building == Current(log)
    requires Quiet(s, line) && Step(s, line) == Success(t)
    ensures AllDescribed(t, log + [line])
  {
    QuietSame(s, line, t);
    DescribedKept(s, t, log, line);
  }

  lemma {:induction false} StepDescribed(s: State, t: State, log: seq<Line>, line: Line)
    requires AllDescribed(s, log) && Good(s, log) && Follows(s, log) && Step(s, line) == Success(t)
    ensures AllDescribed(t, log + [line])
  {
    hide Core, BuildingLive, AllDescribed, Current, InAlloc, UsedIn, Used;
    if Quiet(s, line) {
      QuietDescribed(s, t, log, line);
    } else {
      match line
      case Text(text) => TextDescribed(s, t, log, text);
      case Header(start, size) => AllocDescribed(s, t, log, start, size);
    }
  }

  lemma {:induction false} RunDescribed(log: seq<Line>, s: State)
    requires Run(log) == Success(s)
    ensures AllDescribed(s, log)
    decreases |log|
  {
    if log != [] {
      var before, line, r := LastStep(log, s);
      RunDescribed(before, r);
      RunKeeps(before, r);
      RunFollows(before, r);
      StepDescribed(r, s, before, line);
    }
  }

  ghost predicate HasKey(allocs: seq<Alloc>, k: Key)
  {
    exists a :: a in allocs && a.Id() == k
  }

  lemma {:induction false} HasKeyKept(was: seq<Alloc>, now: seq<Alloc>, k: Key)
    requires Kept(was, now) && HasKey(was, k)
    ensures HasKey(now, k)
  {
    var a :| a in was && a.Id() == k;
    var b :| b in now && b.Id() == a.Id() && b.size == a.size;
  }

  lemma {:induction false} FreeKept(s: State, start: nat, t: State)
    requires t == OnFree(s, start)
    ensures Kept(s.live + s.done, t.live + t.done)
  {
    var k := Below(Starts(s.live), start);
    forall c | c in s.live + s.done ensures c in t.live + t.done {
      if t != Passed(s) { RemovedMembers(s.live, k, c); }
    }
  }

  lemma {:induction false} AllocEndKept(s: State, t: State)
    requires t == OnAllocEnd(s)
    ensures Kept(s.live + s.done, t.live + t.done)
  {
    if s.building.Some? && Find(s.live, s.building.value).Some? {
      var i := Find(s.live, s.building.value).value;
      UpdateKept(s.live, s.done, i, t.live[i]);
    }
  }

  lemma {:induction false} TextKept(s: State, text: string, t: State)
    requires t == OnText(s, text)
    ensures Kept(s.live + s.done, t.live + t.done)
  {
    if t != Passed(s) {
      var i := Find(s.live, s.building.value).value;
      UpdateKept(s.live, s.done, i, t.live[i]);
    }
  }

  lemma {:induction false} StoreKept(s: State, addr: nat, value: nat, t: State)
    requires OnStore(s, addr, value) == Success(t)
    ensures Kept(s.live + s.done, t.live + t.done)
  {
    var i := Probe(s.live, addr).value;
    UpdateKept(s.live, s.done, i, t.live[i]);
  }

  lemma {:induction false} AllocKept(s: State, start: nat, size: nat, t: State)
    requires t == OnAlloc(s, start, size)
    ensures Kept(s.live + s.done, t.live + t.done)
  {
    InsertMembership(s, Alloc(start, size, Used(s.usage, start) + 1, [], []));
  }

  lemma {:induction false} AllocHasKey(s: State, start: nat, size: nat, t: State)
    requires t == OnAlloc(s, start, size)
    ensures HasKey(t.live + t.done, Key(start, Used(s.usage, start) + 1))
  {
    var a := Alloc(start, size, Used(s.usage, start) + 1, [], []);
    InsertMembers(s.live, a, a);
    assert a in t.live + t.done;
  }

  /** No line makes an allocation disappear. */
  lemma {:induction false} StepKept(s: State, line: Line, t: State)
    requires Step(s, line) == Success(t)
    ensures Kept(s.live + s.done, t.live + t.done)
  {
    match line
    case Store(addr, value) => StoreKept(s, addr, value, t);
    case AllocEnd => AllocEndKept(s, t);
    case Header(start, size) =>
      if s.inAlloc {
        AllocKept(s, start, size, t);
      } else if s.inFree {
        FreeKept(s, start, t);
      }
    case Text(text) => TextKept(s, text, t);
    case _ =>
  }

  lemma {:induction false} StepHasKey(s: State, line: Line, t: State, log: seq<Line>, k: Key)
    requires Step(s, line) == Success(t) && Follows(s, log) && 1 <= k.usage <= UsedIn(log + [line], k.start)
    requires k.usage <= UsedIn(log, k.start) ==> HasKey(s.live + s.done, k)
    ensures HasKey(t.live + t.done, k)
  {
    UsedStep(log, line, k.start);
    if k.usage <= UsedIn(log, k.start) {
      StepKept(s, line, t);
      HasKeyKept(s.live + s.done, t.live + t.done, k);
    } else {
      AllocHasKey(s, line.start, line.size, t);
    }
  }

  lemma {:induction false} RunHasKey(log: seq<Line>, s: State, k: Key)
    requires Run(log) == Success(s) && 1 <= k.usage <= UsedIn(log, k.start)
    ensures HasKey(s.live + s.done, k)
    decreases |log|
  {
    var before, line, r := LastStep(log, s);
    RunFollows(before, r);
    if k.usage <= UsedIn(before, k.start) { RunHasKey(before, r, k); }
    StepHasKey(r, line, s, before, k);
  }

  /** Finishing changes the order only. */
  lemma {:induction false} FinishedKept(s: State)
    ensures forall a :: a in Finished(s) <==> a in s.live + s.done
  {
  }

  lemma {:induction false} FinishedHasKey(log: seq<Line>, s: State, k: Key)
    requires Run(log) == Success(s) && 1 <= k.usage <= UsedIn(log, k.start)
    ensures HasKey(Finished(s), k)
  {
    hide Run, UsedIn;
    RunHasKey(log, s, k);
    FinishedKept(s);
  }

  lemma {:induction false} FinishedCounted(log: seq<Line>, s: State, a: Alloc)
    requires Run(log) == Success(s) && a in Finished(s)
    ensures 1 <= a.usage <= UsedIn(log, a.start)
  {
    hide Run, UsedIn, Finished, Used;
    FinishedKept(s);
    RunCounted(log, s, a);
    RunFollows(log, s);
    assert Used(s.usage, a.start) == UsedIn(log, a.start);
  }

  lemma {:induction false} RunCounted(log: seq<Line>, s: State, a: Alloc)
    requires Run(log) == Success(s) && a in s.live + s.done
    ensures 1 <= a.usage <= Used(s.usage, a.start)
  {
    hide Run, Used, OwnersRight, AllHold, KeysApart, Ordered, BuildingLive;
    RunKeeps(log, s);
  }

  lemma {:induction false} FinishedDescribed(log: seq<Line>, s: State, a: Alloc)
    requires Run(log) == Success(s) && a in Finished(s)
    ensures Described(a, log)
  {
    hide Run, Described;
    FinishedKept(s);
    RunDescribed(log, s);
  }

  /** The allocations of an accepted log are its ALLOC headers: the `n`-th for an address gives
      the allocation with that number, with the size of the header and the text of the block. */
  lemma {:induction false} AllocsAreHeaders(log: seq<Line>, s: State, k: Key)
    requires Run(log) == Success(s)
    ensures HasKey(Finished(s), k) <==> 1 <= k.usage <= UsedIn(log, k.start)
    ensures forall a :: a in Finished(s) ==> a.stack == StackOf(log, a.Id()) && a.size == SizeOf(log, a.Id())
  {
    hide Run, UsedIn, Finished, StackOf, SizeOf;
    if 1 <= k.usage <= UsedIn(log, k.start) {
      FinishedHasKey(log, s, k);
    }
    if HasKey(Finished(s), k) {
      var a :| a in Finished(s) && a.Id() == k;
      FinishedCounted(log, s, a);
    }
    forall a | a in Finished(s) ensures Described(a, log) { FinishedDescribed(log, s, a); }
  }
}
