/** The splitter's loop over the lines of the log, proved to compute the run of the log and to
    leave exactly the files of its allocations. */
module LogDriver {
  import opened Options
  import opened StoreFiles
  import opened LogSplit
  import opened LogRun
  import opened LogOwners
  import opened LiveAllocs
  import opened LogIndex
  import opened LogSplitter
  import FC = FileCache

  /** Index, cache and objects hold what the state says. */
  ghost predicate Linked(index: Index, cache: FC.Cache, live: seq<Alloc>, done: seq<Alloc>)
    reads index, cache, Objs(index.live)
  {
    index.Valid() && cache.Valid() && Agree(index.live, live) && FilesRight(cache.Now(), live, done)
  }

  /** The other variables of the loop. */
  datatype Vars = Vars(usage: map<nat, nat>, inAlloc: bool, inFree: bool, building: LiveAlloc?)

  ghost predicate VarsAgree(w: Vars, s: State, live: seq<LiveAlloc>)
  {
    w.usage == s.usage && w.inAlloc == s.inAlloc && w.inFree == s.inFree &&
    if w.building == null then s.building.None?
    else w.building in live && s.building == Some(Key(w.building.start, w.building.usage))
  }

  lemma {:induction false} FindAt(v: seq<Alloc>, i: nat, k: Key)
    requires Ordered(v) && i < |v| && v[i].Id() == k
    ensures Find(v, k) == Some(i)
  {
  }

  /** Position and state index of the allocation being read. */
  method BuildingAt(index: Index, a: LiveAlloc, ghost v: seq<Alloc>) returns (i: nat)
    requires index.Valid() && Agree(index.live, v) && a in index.live
    ensures i < |index.live| == |v| && index.live[i] == a && Find(v, Key(a.start, a.usage)) == Some(i)
  {
    i := Position(index.live, a);
    AgreeMatches(index.live, v);
    OrderedViews(index.live, v);
    FindAt(v, i, Key(a.start, a.usage));
  }

  method Locate(index: Index, ghost v: seq<Alloc>, addr: nat) returns (r: Option<nat>)
    requires index.Valid() && Agree(index.live, v)
    ensures r == Probe(v, addr) && |v| == |index.live|
  {
    AgreeMatches(index.live, v);
    r := index.Lookup(addr, v);
  }

  lemma {:induction false} NoStore(s: State, addr: nat, value: nat)
    requires Probe(s.live, addr).None?
    ensures OnStore(s, addr, value).Failure?
  {
  }

  method OnStoreLine(index: Index, cache: FC.Cache, ghost s: State, addr: nat, value: nat)
    returns (ok: bool, ghost t: State)
    requires Linked(index, cache, s.live, s.done)
    modifies cache, Objs(index.live)
    ensures ok ==> Linked(index, cache, t.live, t.done) && OnStore(s, addr, value) == Success(t)
    ensures cache.maxOpen > 0 ==> (ok <==> OnStore(s, addr, value).Success?)
  {
    hide OnStore, Probe;
    t := s;
    var r := Locate(index, s.live, addr);
    if r.None? {
      NoStore(s, addr, value);
      return false, s;
    }
    StoreIs(s, addr, value, r.value);
    ghost var b;
    ok, b := StoreAt(index.live, s.live, s.done, r.value, addr, value, cache);
    t := s.(live := s.live[r.value := b], owners := s.owners + [Some(s.live[r.value].Id())]);
  }

  method OnAllocEndLine(index: Index, cache: FC.Cache, ghost s: State, building: LiveAlloc?)
    returns (ok: bool, ghost t: State)
    requires Linked(index, cache, s.live, s.done)
    requires if building == null then s.building.None?
             else building in index.live && s.building == Some(Key(building.start, building.usage))
    modifies cache, Objs(index.live)
    ensures ok ==> Linked(index, cache, t.live, t.done)
    ensures t == OnAllocEnd(s) && (cache.maxOpen > 0 ==> ok)
  {
    t := OnAllocEnd(s);
    ok := true;
    if building != null {
      var i := BuildingAt(index, building, s.live);
      ghost var b;
      ok, b := HeadAt(index.live, s.live, s.done, i, cache);
    }
  }

  method OnTextLine(index: Index, cache: FC.Cache, ghost s: State, building: LiveAlloc?, text: string)
    returns (ghost t: State)
    requires Linked(index, cache, s.live, s.done)
    requires if building == null then s.building.None? || !s.inAlloc
             else s.inAlloc && building in index.live && s.building == Some(Key(building.start, building.usage))
    modifies Objs(index.live)
    ensures Linked(index, cache, t.live, t.done) && t == OnText(s, text)
  {
    t := OnText(s, text);
    var stripped := RStrip(text);
    if building != null && stripped != "" {
      var i := BuildingAt(index, building, s.live);
      ghost var b := TextAt(index.live, s.live, i, stripped);
      TextFiles(cache.Now(), s.live, s.done, i, b);
    }
  }

  lemma {:induction false} NewKey(s: State, start: nat)
    requires Counted(s.live + s.done, s.usage)
    ensures forall i :: 0 <= i < |s.live| ==> s.live[i].Id() != Key(start, Used(s.usage, start) + 1)
  {
    NewerThanLive(s, start);
  }

  lemma {:induction false} AllocFiles(f: FC.Files, s: State, start: nat, size: nat)
    requires FilesRight(f, s.live, s.done) && f.handles.Keys <= f.disk.Keys && Counted(s.live + s.done, s.usage)
    ensures FilesRight(f, OnAlloc(s, start, size).live, s.done)
  {
    var a := Alloc(start, size, Used(s.usage, start) + 1, [], []);
    NewKey(s, start);
    InsertKeeps(f, s.live, s.done, a);
    assert OnAlloc(s, start, size).live == Insert(s.live, a);
  }

  method OnFreeLine(index: Index, cache: FC.Cache, ghost s: State, start: nat) returns (ghost t: State)
    requires Linked(index, cache, s.live, s.done)
    modifies index, cache
    ensures Linked(index, cache, t.live, t.done) && t == OnFree(s, start)
    ensures Objs(index.live) <= old(Objs(index.live))
  {
    t := OnFree(s, start);
    ghost var k := Below(Starts(s.live), start);
    var a := FindNewest(index, s.live, start);
    if a == null {
      assert t == Passed(s);
    } else {
      assert t.live == Removed(s.live, k) && t.done == s.done + [s.live[k]];
      FinishNewest(index, s.live, s.done, cache, a, k);
    }
  }

  /** A header line: an allocation inside an ALLOC block, a free inside a FREE block. */
  method OnHeaderLine(index: Index, cache: FC.Cache, w: Vars, ghost s: State, start: nat, size: nat)
    returns (u: Vars, ghost t: State)
    requires Linked(index, cache, s.live, s.done) && VarsAgree(w, s, index.live)
    requires Counted(s.live + s.done, s.usage) && BuildingLive(s)
    modifies index, cache
    ensures Linked(index, cache, t.live, t.done) && VarsAgree(u, t, index.live)
    ensures Step(s, Header(start, size)) == Success(t)
    ensures fresh(Objs(index.live) - old(Objs(index.live)))
  {
    u := w;
    t := Step(s, Header(start, size)).value;
    if w.inAlloc {
      AllocFiles(cache.Now(), s, start, size);
      NewerThanLive(s, start);
      var n := Used(w.usage, start) + 1;
      var a := AllocAt(index, s.live, start, size, n);
      u := w.(usage := w.usage[start := n], building := a);
    } else if w.inFree {
      t := OnFreeLine(index, cache, s, start);
    }
  }

  /** One line of the log. */
  method ProcessLine(index: Index, cache: FC.Cache, w: Vars, ghost s: State, line: Line)
    returns (ok: bool, u: Vars, ghost t: State)
    requires Linked(index, cache, s.live, s.done) && VarsAgree(w, s, index.live)
    requires Counted(s.live + s.done, s.usage) && BuildingLive(s)
    modifies index, cache, Objs(index.live)
    ensures ok ==> Linked(index, cache, t.live, t.done) && VarsAgree(u, t, index.live) && Step(s, line) == Success(t)
    ensures cache.maxOpen > 0 ==> (ok <==> Step(s, line).Success?)
    ensures fresh(Objs(index.live) - old(Objs(index.live)))
  {
    ok, u, t := true, w, Passed(s);
    match line
    case Store(addr, value) =>
      ok, t := OnStoreLine(index, cache, s, addr, value);
    case AllocStart =>
      u := w.(inAlloc := true, building := null);
      t := Passed(s.(inAlloc := true, building := None));
    case AllocEnd =>
      ok, t := OnAllocEndLine(index, cache, s, w.building);
      u := w.(inAlloc := false, building := null);
    case FreeStart =>
      u := w.(inFree := true);
      t := Passed(s.(inFree := true));
    case FreeEnd =>
      u := w.(inFree := false);
      t := Passed(s.(inFree := false));
    case Header(start, size) =>
      u, t := OnHeaderLine(index, cache, w, s, start, size);
    case Text(text) =>
      t := OnTextLine(index, cache, s, if w.inAlloc then w.building else null, text);
  }

  method FinishFirst(index: Index, cache: FC.Cache, ghost v: seq<Alloc>, ghost d: seq<Alloc>)
    requires Linked(index, cache, v, d) && index.live != []
    modifies index, cache
    ensures v != [] && Linked(index, cache, v[1..], d + [v[0]])
  {
    FirstIsNewest(index.live);
    assert Removed(v, 0) == v[1..];
    FinishNewest(index, v, d, cache, index.live[0], 0);
  }

  lemma {:induction false} MoveOver(v: seq<Alloc>, d: seq<Alloc>)
    requires v != []
    ensures (d + [v[0]]) + v[1..] == d + v
  {
  }

  /** At the end of the log every live allocation is finished, in the order of the index. */
  method FinishAll(index: Index, cache: FC.Cache, ghost live: seq<Alloc>, ghost done: seq<Alloc>)
    requires Linked(index, cache, live, done)
    modifies index, cache
    ensures Linked(index, cache, [], done + live)
  {
    ghost var v, d := live, done;
    while index.live != []
      invariant Linked(index, cache, v, d) && d + v == done + live
      decreases |v|
    {
      MoveOver(v, d);
      FinishFirst(index, cache, v, d);
      v, d := v[1..], d + [v[0]];
    }
    assert v == [] && d + [] == d;
  }

  lemma {:induction false} FirstIsNewest(live: seq<LiveAlloc>)
    requires live != []
    ensures Below(StartsOf(live), live[0].start) == 0
  {
    assert StartsOf(live)[0] == live[0].start;
  }

  lemma {:induction false} OnlyTheFiles(f: FC.Files, done: seq<Alloc>)
    requires FilesRight(f, [], done) && f.handles == map[]
    ensures f.disk == FilesOf(done)
  {
    forall p | p in f.disk ensures p in FilesOf(done) && f.disk[p] == FilesOf(done)[p] {
      assert !p.Tmp? by { assert p.Tmp? ==> HasTmp([], p); }
      assert f.Content(p) == f.disk[p] + [];
    }
    assert f.disk.Keys == FilesOf(done).Keys;
  }

  lemma {:induction false} RunNext(log: seq<Line>, k: nat, s: State)
    requires k < |log| && Run(log[..k]) == Success(s)
    ensures Run(log[..k+1]) == Step(s, log[k])
  {
    assert log[..k+1][..k] == log[..k];
  }

  lemma {:induction false} RunFails(log: seq<Line>, k: nat)
    requires k <= |log| && Run(log[..k]).Failure?
    ensures Run(log).Failure?
    decreases |log| - k
  {
    if k == |log| {
      assert log[..k] == log;
    } else {
      assert log[..k+1][..k] == log[..k];
      RunFails(log, k + 1);
    }
  }

  lemma {:induction false} StateFacts(log: seq<Line>, s: State)
    requires Run(log) == Success(s)
    ensures Counted(s.live + s.done, s.usage) && BuildingLive(s)
  {
    RunKeeps(log, s);
  }

  /** Nothing read, nothing written. */
  method Begin(maxOpen: nat) returns (index: Index, cache: FC.Cache)
    ensures fresh(index) && fresh(cache) && fresh(Objs(index.live)) && cache.maxOpen == maxOpen
    ensures index.live == [] && Linked(index, cache, [], [])
  {
    cache := new FC.Cache(maxOpen);
    index := new Index();
  }

  /** Finish what is live and close all files. */
  method End(index: Index, cache: FC.Cache, ghost live: seq<Alloc>, ghost done: seq<Alloc>)
    returns (files: map<Path, seq<FileLine>>)
    requires Linked(index, cache, live, done)
    modifies index, cache
    ensures files == FilesOf(done + live)
  {
    FinishAll(index, cache, live, done);
    ghost var f := cache.Now();
    cache.CloseAll();
    ClosedFiles(f, cache.Now(), done + live);
    files := cache.disk;
  }

  /** Read the log and write one file per allocation with stores.  With room for one open file
      this succeeds exactly when every store has a live allocation to go to, and what it leaves
      on disk are the files of the run. */
  method ParseLog(log: seq<Line>, maxOpen: nat) returns (r: Result<map<Path, seq<FileLine>>>)
    ensures r.Success? ==> Run(log).Success? && r.value == FilesOf(Finished(Run(log).value))
    ensures maxOpen > 0 ==> (r.Success? <==> AllHeld(log))
  {
    hide Linked, FilesOf, Counted, Step, AllHeld;
    AcceptedIffHeld(log);
    var index, cache := Begin(maxOpen);
    var w := Vars(map[], false, false, null);
    ghost var s := INITIAL;
    var k := 0;
    while k < |log|
      invariant 0 <= k <= |log| && Run(log[..k]) == Success(s)
      invariant fresh(cache) && fresh(index) && fresh(Objs(index.live)) && cache.maxOpen == maxOpen
      invariant Linked(index, cache, s.live, s.done) && VarsAgree(w, s, index.live)
    {
      StateFacts(log[..k], s);
      RunNext(log, k, s);
      var ok;
      ok, w, s := ProcessLine(index, cache, w, s, log[k]);
      if !ok {
        if maxOpen > 0 { RunFails(log, k + 1); }
        return Failure;
      }
      k := k + 1;
    }
    assert log[..k] == log;
    var files := End(index, cache, s.live, s.done);
    return Success(files);
  }

  lemma {:induction false} ClosedFiles(f: FC.Files, g: FC.Files, done: seq<Alloc>)
    requires FilesRight(f, [], done) && FC.Unchanged(f, g) && g.handles == map[] && g.disk.Keys == f.disk.Keys
    ensures g.disk == FilesOf(done)
  {
    forall p | p in g.disk && p.Tmp? ensures HasTmp([], p) { assert p in f.disk; }
    forall p | p in FilesOf(done) ensures p in g.disk && g.Content(p) == FilesOf(done)[p] {
      assert p in f.disk && g.Content(p) == f.Content(p);
    }
    forall p | p in g.disk && !p.Tmp? ensures p in FilesOf(done) { assert p in f.disk; }
    OnlyTheFiles(g, done);
  }
}
