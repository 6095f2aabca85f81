/** memlog's log splitter as it runs: it reads the log line by line, keeps the index of live
    allocations, and writes their files through the handle cache. */
module LogSplitter {
  import opened Options
  import opened StoreFiles
  import opened LogSplit
  import opened LogRun
  import opened LiveAllocs
  import opened LogIndex
  import FC = FileCache

  // ------------------------------------------------------------------ files of a state

  function TmpOf(a: Alloc): (p: Path)
  {
    Tmp(a.start, a.size, a.usage)
  }

  function NameOf(a: Alloc): (p: Path)
  {
    Stores(a.start, a.size, KindOf(Rows(a.body)), a.usage)
  }

  /** The files that finished allocations leave behind. */
  function FilesOf(done: seq<Alloc>): (m: map<Path, seq<FileLine>>)
    ensures forall p :: p in m ==> p.Stores?
  {
    if done == [] then map[]
    else
      var m, a := FilesOf(done[..|done|-1]), done[|done|-1];
      if Rows(a.body) == [] then m else m[NameOf(a) := a.body]
  }

  ghost predicate HasTmp(live: seq<Alloc>, p: Path)
  {
    exists i :: 0 <= i < |live| && p == TmpOf(live[i])
  }

  /** Temporary files are those of live allocations and hold their lines. */
  ghost predicate TmpRight(f: FC.Files, live: seq<Alloc>)
  {
    (forall p :: p in f.handles ==> p.Tmp?) &&
    (forall p :: p in f.disk && p.Tmp? ==> HasTmp(live, p)) &&
    (forall i {:trigger TmpOf(live[i])} :: 0 <= i < |live| ==> f.Content(TmpOf(live[i])) == live[i].body)
  }

  /** The other files are those of finished allocations. */
  ghost predicate DoneRight(f: FC.Files, m: map<Path, seq<FileLine>>)
  {
    (forall p :: p in f.disk && !p.Tmp? ==> p in m) &&
    (forall p :: p in m ==> p in f.disk && f.Content(p) == m[p])
  }

  ghost predicate FilesRight(f: FC.Files, live: seq<Alloc>, done: seq<Alloc>)
  {
    TmpRight(f, live) && DoneRight(f, FilesOf(done))
  }

  /** Writing to the file of live allocation `i`. */
  lemma {:induction false} WriteTmp(f: FC.Files, g: FC.Files, live: seq<Alloc>, i: nat, b: Alloc, lines: seq<FileLine>)
    requires TmpRight(f, live) && Ordered(live) && i < |live|
    requires b.Id() == live[i].Id() && b.size == live[i].size
    requires b.body == live[i].body + lines && FC.Appended(f, g, TmpOf(b), lines)
    ensures TmpRight(g, live[i := b])
  {
    var now := live[i := b];
    assert TmpOf(now[i]) == TmpOf(b);
    forall p | p in g.disk && p.Tmp? ensures HasTmp(now, p) {
      if p != TmpOf(b) {
        var j :| 0 <= j < |live| && p == TmpOf(live[j]);
        assert p == TmpOf(now[j]);
      }
    }
    forall j | 0 <= j < |now| ensures g.Content(TmpOf(now[j])) == now[j].body {
      assert f.Content(TmpOf(live[j])) == live[j].body;
      if j != i { assert live[j].Id() != live[i].Id(); }
    }
  }

  lemma {:induction false} WriteKeeps(f: FC.Files, g: FC.Files, live: seq<Alloc>, done: seq<Alloc>, i: nat, b: Alloc,
                                      lines: seq<FileLine>)
    requires FilesRight(f, live, done) && Ordered(live) && i < |live|
    requires b.Id() == live[i].Id() && b.size == live[i].size
    requires b.body == live[i].body + lines && FC.Appended(f, g, TmpOf(b), lines)
    ensures FilesRight(g, live[i := b], done)
  {
    WriteTmp(f, g, live, i, b, lines);
  }

  lemma {:induction false} HasTmpInserted(live: seq<Alloc>, a: Alloc, p: Path)
    requires HasTmp(live, p)
    ensures HasTmp(Insert(live, a), p)
  {
    var k := Below(Starts(live), a.start);
    var j :| 0 <= j < |live| && p == TmpOf(live[j]);
    assert p == TmpOf(Insert(live, a)[if j < k then j else j + 1]);
  }

  /** A new allocation has no file yet. */
  lemma {:induction false} InsertKeeps(f: FC.Files, live: seq<Alloc>, done: seq<Alloc>, a: Alloc)
    requires FilesRight(f, live, done) && f.handles.Keys <= f.disk.Keys && a.body == []
    requires forall i :: 0 <= i < |live| ==> live[i].Id() != a.Id()
    ensures FilesRight(f, Insert(live, a), done)
  {
    var now, k := Insert(live, a), Below(Starts(live), a.start);
    assert TmpOf(a) !in f.disk;
    forall p | p in f.disk && p.Tmp? ensures HasTmp(now, p) { HasTmpInserted(live, a, p); }
    forall j | 0 <= j < |now| ensures f.Content(TmpOf(now[j])) == now[j].body {
      if j != k {
        var l := if j < k then j else j - 1;
        assert now[j] == live[l] && f.Content(TmpOf(live[l])) == live[l].body;
      }
    }
  }

  lemma {:induction false} FilesNext(done: seq<Alloc>, a: Alloc)
    ensures FilesOf(done + [a]) == if Rows(a.body) == [] then FilesOf(done) else FilesOf(done)[NameOf(a) := a.body]
  {
    assert (done + [a])[..|done|] == done;
  }

  /** What finishing an allocation does to the files. */
  ghost predicate Finalized(f: FC.Files, g: FC.Files, a: Alloc)
  {
    if Rows(a.body) == [] then FC.Dropped(f, g, TmpOf(a)) else FC.Renamed(f, g, TmpOf(a), NameOf(a))
  }

  lemma {:induction false} HasTmpRemoved(live: seq<Alloc>, k: nat, p: Path)
    requires k < |live| && HasTmp(live, p) && p != TmpOf(live[k])
    ensures HasTmp(Removed(live, k), p)
  {
    var j :| 0 <= j < |live| && p == TmpOf(live[j]);
    assert p == TmpOf(Removed(live, k)[if j < k then j else j - 1]);
  }

  lemma {:induction false} OtherTmp(live: seq<Alloc>, k: nat, j: nat) returns (l: nat)
    requires Ordered(live) && k < |live| && j < |Removed(live, k)|
    ensures l < |live| && Removed(live, k)[j] == live[l] && TmpOf(live[l]) != TmpOf(live[k])
  {
    l := if j < k then j else j + 1;
    assert live[l].Id() != live[k].Id();
  }

  lemma {:induction false} FinishTmp(f: FC.Files, g: FC.Files, live: seq<Alloc>, k: nat)
    requires TmpRight(f, live) && Ordered(live) && k < |live| && Finalized(f, g, live[k])
    ensures TmpRight(g, Removed(live, k))
  {
    var now := Removed(live, k);
    forall p | p in g.disk && p.Tmp? ensures HasTmp(now, p) {
      assert p in f.disk && p != TmpOf(live[k]);
      HasTmpRemoved(live, k, p);
    }
    forall j | 0 <= j < |now| ensures g.Content(TmpOf(now[j])) == now[j].body {
      var l := OtherTmp(live, k, j);
      assert f.Content(TmpOf(live[l])) == live[l].body;
    }
  }

  lemma {:induction false} FinishDone(f: FC.Files, g: FC.Files, done: seq<Alloc>, a: Alloc)
    requires DoneRight(f, FilesOf(done)) && Finalized(f, g, a) && f.Content(TmpOf(a)) == a.body
    ensures DoneRight(g, FilesOf(done + [a]))
  {
    FilesNext(done, a);
  }

  /** Finishing live allocation `k`. */
  lemma {:induction false} FinishKeeps(f: FC.Files, g: FC.Files, live: seq<Alloc>, done: seq<Alloc>, k: nat)
    requires FilesRight(f, live, done) && Ordered(live) && k < |live| && Finalized(f, g, live[k])
    ensures FilesRight(g, Removed(live, k), done + [live[k]])
  {
    FinishTmp(f, g, live, k);
    FinishDone(f, g, done, live[k]);
  }

  // ------------------------------------------------------------------ the splitter

  ghost function Objs(live: seq<LiveAlloc>): (s: set<LiveAlloc>)
  {
    set a | a in live
  }

  /** The objects are valid and have the given values. */
  ghost predicate Agree(live: seq<LiveAlloc>, v: seq<Alloc>)
    reads Objs(live)
  {
    |live| == |v| && forall i {:trigger live[i].View()} {:trigger live[i].Valid()} :: 0 <= i < |v| ==> live[i].Valid() && live[i].View() == v[i]
  }

  lemma {:induction false} AgreeMatches(live: seq<LiveAlloc>, v: seq<Alloc>)
    requires Agree(live, v)
    ensures Matches(live, v)
  {
    forall i | 0 <= i < |v| ensures v[i].start == live[i].start && v[i].size == live[i].size && v[i].usage == live[i].usage {
      assert live[i].View() == v[i];
    }
  }

  lemma {:induction false} OrderedViews(live: seq<LiveAlloc>, v: seq<Alloc>)
    requires InOrder(live) && Matches(live, v)
    ensures Ordered(v) && Starts(v) == StartsOf(live)
  {
    forall i, j | 0 <= i < j < |v|
      ensures v[i].start < v[j].start || (v[i].start == v[j].start && v[i].usage > v[j].usage)
    {
      assert Precedes(live[i], live[j]);
    }
  }

  lemma {:induction false} StoredFiles(live: seq<LiveAlloc>, v: seq<Alloc>, f: FC.Files, g: FC.Files, done: seq<Alloc>,
                                       i: nat, b: Alloc, lines: seq<FileLine>)
    requires InOrder(live) && Matches(live, v) && FilesRight(f, v, done) && i < |v|
    requires b.Id() == v[i].Id() && b.size == v[i].size
    requires b.body == v[i].body + lines && FC.Appended(f, g, TmpOf(b), lines)
    ensures FilesRight(g, v[i := b], done)
  {
    OrderedViews(live, v);
    WriteKeeps(f, g, v, done, i, b, lines);
  }

  lemma {:induction false} Apart(live: seq<LiveAlloc>, i: nat)
    requires InOrder(live) && i < |live|
    ensures OnlyAt(live, i)
  {
    forall j | 0 <= j < |live| && j != i ensures live[j] != live[i] {
      assert i < j ==> Precedes(live[i], live[j]);
      assert j < i ==> Precedes(live[j], live[i]);
    }
  }

  predicate OnlyAt(live: seq<LiveAlloc>, i: nat)
    requires i < |live|
  {
    forall j :: 0 <= j < |live| && j != i ==> live[j] != live[i]
  }

  /** Write a store to the file of allocation `i`. */
  method StoreTo(live: seq<LiveAlloc>, ghost v: seq<Alloc>, i: nat, addr: nat, value: nat, cache: FC.Cache)
    returns (ok: bool, ghost b: Alloc)
    requires Agree(live, v) && i < |live| && OnlyAt(live, i) && v[i].Contains(addr) && cache.Valid()
    modifies live[i], cache
    ensures cache.Valid() && (ok <==> cache.maxOpen > 0)
    ensures b == v[i].(body := v[i].body + [Row(addr - v[i].start, value)])
    ensures ok ==> Agree(live, v[i := b])
    ensures ok ==> FC.Appended(old(cache.Now()), cache.Now(), TmpOf(b), [Row(addr - v[i].start, value)])
  {
    var a := live[i];
    assert live[i].View() == v[i];
    ok := a.WriteStore(addr, value, cache);
    b := v[i].(body := v[i].body + [Row(addr - v[i].start, value)]);
    if ok {
      forall j | 0 <= j < |v| ensures live[j].Valid() && live[j].View() == v[i := b][j] {
        if j != i { assert old(live[j].View()) == v[j]; }
      }
    }
  }

  /** The same, with what it means for the files. */
  method StoreAt(live: seq<LiveAlloc>, ghost v: seq<Alloc>, ghost done: seq<Alloc>, i: nat, addr: nat, value: nat,
                 cache: FC.Cache) returns (ok: bool, ghost b: Alloc)
    requires Agree(live, v) && InOrder(live) && i < |live| && v[i].Contains(addr)
    requires cache.Valid() && FilesRight(cache.Now(), v, done)
    modifies live[i], cache
    ensures cache.Valid() && (ok <==> cache.maxOpen > 0)
    ensures b == v[i].(body := v[i].body + [Row(addr - v[i].start, value)])
    ensures ok ==> Agree(live, v[i := b]) && FilesRight(cache.Now(), v[i := b], done)
  {
    ghost var f := cache.Now();
    AgreeMatches(live, v);
    Apart(live, i);
    ok, b := StoreTo(live, v, i, addr, value, cache);
    if ok {
      StoredFiles(live, v, f, cache.Now(), done, i, b, [Row(addr - v[i].start, value)]);
    }
  }

  /** Write the stack that was gathered to the file of allocation `i`. */
  method HeadTo(live: seq<LiveAlloc>, ghost v: seq<Alloc>, i: nat, cache: FC.Cache)
    returns (ok: bool, ghost b: Alloc)
    requires Agree(live, v) && i < |live| && OnlyAt(live, i) && v[i].stack != [] && cache.Valid()
    modifies live[i], cache
    ensures cache.Valid() && (ok <==> cache.maxOpen > 0)
    ensures b == v[i].(body := v[i].body + Heads(v[i].stack))
    ensures ok ==> Agree(live, v[i := b])
    ensures ok ==> FC.Appended(old(cache.Now()), cache.Now(), TmpOf(b), Heads(v[i].stack))
  {
    var a := live[i];
    assert live[i].View() == v[i];
    b := v[i].(body := v[i].body + Heads(v[i].stack));
    ok := cache.WriteLine(a.TmpPath(), Heads(a.stackLines));
    if ok {
      RowsConcat(a.body, Heads(a.stackLines));
      RowsOfHeads(a.stackLines);
      a.body := a.body + Heads(a.stackLines);
      forall j | 0 <= j < |v| ensures live[j].Valid() && live[j].View() == v[i := b][j] {
        if j != i { assert old(live[j].View()) == v[j]; }
      }
    }
  }

  /** The end of an ALLOC block: the stack, if any, goes to the file. */
  method HeadAt(live: seq<LiveAlloc>, ghost v: seq<Alloc>, ghost done: seq<Alloc>, i: nat, cache: FC.Cache)
    returns (ok: bool, ghost b: Alloc)
    requires Agree(live, v) && InOrder(live) && i < |live|
    requires cache.Valid() && FilesRight(cache.Now(), v, done)
    modifies live[i], cache
    ensures cache.Valid() && (cache.maxOpen > 0 ==> ok)
    ensures b == v[i].(body := v[i].body + Heads(v[i].stack))
    ensures ok ==> Agree(live, v[i := b]) && FilesRight(cache.Now(), v[i := b], done)
  {
    ghost var f := cache.Now();
    AgreeMatches(live, v);
    Apart(live, i);
    assert live[i].View() == v[i];
    if live[i].stackLines == [] {
      ok, b := true, v[i].(body := v[i].body + Heads(v[i].stack));
      assert b == v[i] && v[i := b] == v;
    } else {
      ok, b := HeadTo(live, v, i, cache);
      if ok {
        StoredFiles(live, v, f, cache.Now(), done, i, b, Heads(v[i].stack));
      }
    }
  }

  /** A line of the stack of allocation `i`. */
  method TextAt(live: seq<LiveAlloc>, ghost v: seq<Alloc>, i: nat, line: string) returns (ghost b: Alloc)
    requires Agree(live, v) && InOrder(live) && i < |live|
    modifies live[i]
    ensures b == v[i].(stack := v[i].stack + [line]) && Agree(live, v[i := b])
  {
    var a := live[i];
    Apart(live, i);
    assert live[i].View() == v[i];
    b := v[i].(stack := v[i].stack + [line]);
    a.stackLines := a.stackLines + [line];
    forall j | 0 <= j < |v| ensures live[j].Valid() && live[j].View() == v[i := b][j] {
      if j != i { assert old(live[j].View()) == v[j]; }
    }
  }

  lemma {:induction false} TextFiles(f: FC.Files, v: seq<Alloc>, done: seq<Alloc>, i: nat, b: Alloc)
    requires FilesRight(f, v, done) && i < |v| && b == v[i].(stack := b.stack)
    ensures FilesRight(f, v[i := b], done)
  {
    var now := v[i := b];
    forall j | 0 <= j < |now| ensures TmpOf(now[j]) == TmpOf(v[j]) && f.Content(TmpOf(now[j])) == now[j].body {
      assert f.Content(TmpOf(v[j])) == v[j].body;
    }
    forall p | HasTmp(v, p) ensures HasTmp(now, p) {
      var j :| 0 <= j < |v| && p == TmpOf(v[j]);
      assert p == TmpOf(now[j]);
    }
  }

  lemma {:induction false} StoreIs(s: State, addr: nat, value: nat, i: nat)
    requires Probe(s.live, addr) == Some(i)
    ensures var a := s.live[i];
            OnStore(s, addr, value) == Success(s.(live := s.live[i := a.(body := a.body + [Row(addr - a.start, value)])],
                                                  owners := s.owners + [Some(a.Id())]))
  {
  }

  lemma {:induction false} AgreeInsert(live: seq<LiveAlloc>, v: seq<Alloc>, a: LiveAlloc, now: seq<LiveAlloc>)
    requires Agree(live, v) && Starts(v) == StartsOf(live) && a.Valid()
    requires var k := Below(StartsOf(live), a.start); now == live[..k] + [a] + live[k..]
    ensures Agree(now, Insert(v, a.View()))
  {
    var k, w := Below(StartsOf(live), a.start), Insert(v, a.View());
    forall j | 0 <= j < |w| ensures now[j].Valid() && now[j].View() == w[j] {
      if j != k { assert live[if j < k then j else j - 1].View() == v[if j < k then j else j - 1]; }
    }
  }

  lemma {:induction false} AgreeRemove(live: seq<LiveAlloc>, v: seq<Alloc>, k: nat)
    requires Agree(live, v) && k < |live|
    ensures Agree(live[..k] + live[k+1..], Removed(v, k))
  {
    var now, w := live[..k] + live[k+1..], Removed(v, k);
    forall j | 0 <= j < |w| ensures now[j].Valid() && now[j].View() == w[j] {
      assert live[if j < k then j else j + 1].View() == v[if j < k then j else j + 1];
    }
  }

  lemma {:induction false} OlderObjects(live: seq<LiveAlloc>, v: seq<Alloc>, start: nat, n: nat)
    requires Matches(live, v) && forall i :: 0 <= i < |v| && v[i].start == start ==> v[i].usage < n
    ensures forall i :: 0 <= i < |live| && live[i].start == start ==> live[i].usage < n
  {
    forall i | 0 <= i < |live| && live[i].start == start ensures live[i].usage < n {
      assert v[i].start == start;
    }
  }

  /** A new allocation enters the index. */
  method AllocAt(index: Index, ghost v: seq<Alloc>, start: nat, size: nat, n: nat) returns (a: LiveAlloc)
    requires index.Valid() && Agree(index.live, v)
    requires forall i :: 0 <= i < |v| && v[i].start == start ==> v[i].usage < n
    modifies index
    ensures index.Valid() && fresh(a) && a in index.live && a.start == start && a.usage == n
    ensures Agree(index.live, Insert(v, Alloc(start, size, n, [], [])))
    ensures Objs(index.live) <= old(Objs(index.live)) + {a}
  {
    ghost var live := index.live;
    AgreeMatches(live, v);
    OrderedViews(live, v);
    OlderObjects(live, v, start, n);
    a := new LiveAlloc(start, size, n);
    index.Add(a);
    assert Agree(live, v) by {
      forall j | 0 <= j < |v| ensures live[j].Valid() && live[j].View() == v[j] { assert old(live[j].View()) == v[j]; }
    }
    AgreeInsert(live, v, a, index.live);
    ghost var k := Below(StartsOf(live), a.start);
    assert index.live[k] == a;
  }

  /** Finish live allocation `k`: its file gets its final name or goes. */
  method FinalizeAt(a: LiveAlloc, ghost live: seq<LiveAlloc>, ghost v: seq<Alloc>, ghost done: seq<Alloc>,
                    ghost k: nat, cache: FC.Cache)
    requires Agree(live, v) && k < |v| && a == live[k] && Ordered(v)
    requires cache.Valid() && FilesRight(cache.Now(), v, done)
    modifies cache
    ensures cache.Valid() && FilesRight(cache.Now(), Removed(v, k), done + [v[k]]) && Agree(live, v)
  {
    ghost var f := cache.Now();
    assert live[k].View() == v[k] && f.Content(TmpOf(v[k])) == v[k].body;
    a.CloseAndFinalize(cache);
    FinishKeeps(f, cache.Now(), v, done, k);
    forall j | 0 <= j < |v| ensures live[j].Valid() && live[j].View() == v[j] { assert old(live[j].View()) == v[j]; }
  }

  /** The newest allocation at an address leaves the index. */
  method RemoveAt(index: Index, ghost v: seq<Alloc>, a: LiveAlloc, ghost k: nat)
    requires index.Valid() && Agree(index.live, v) && k < |v| && index.live[k] == a && k == Below(StartsOf(index.live), a.start)
    modifies index
    ensures index.Valid() && Agree(index.live, Removed(v, k)) && Objs(index.live) <= old(Objs(index.live))
  {
    ghost var live := index.live;
    AgreeRemove(live, v, k);
    index.Remove(a, k);
    forall j | 0 <= j < |live| - 1 ensures index.live[j].Valid() && index.live[j].View() == Removed(v, k)[j] {
      assert old((live[..k] + live[k+1..])[j].View()) == Removed(v, k)[j];
    }
  }

  /** Finish the newest allocation at its address and take it out of the index. */
  method FinishNewest(index: Index, ghost v: seq<Alloc>, ghost done: seq<Alloc>, cache: FC.Cache, a: LiveAlloc, ghost k: nat)
    requires index.Valid() && Agree(index.live, v) && cache.Valid() && FilesRight(cache.Now(), v, done)
    requires k < |v| && index.live[k] == a && k == Below(StartsOf(index.live), a.start)
    modifies index, cache
    ensures index.Valid() && cache.Valid() && Objs(index.live) <= old(Objs(index.live))
    ensures Agree(index.live, Removed(v, k)) && FilesRight(cache.Now(), Removed(v, k), done + [v[k]])
  {
    AgreeMatches(index.live, v);
    OrderedViews(index.live, v);
    FinalizeAt(a, index.live, v, done, k, cache);
    RemoveAt(index, v, a, k);
  }

  /** The newest allocation at an address. */
  method FindNewest(index: Index, ghost v: seq<Alloc>, start: nat) returns (a: LiveAlloc?)
    requires index.Valid() && Agree(index.live, v)
    ensures var k := Below(Starts(v), start);
            Starts(v) == StartsOf(index.live) && (a != null <==> k < |v| && v[k].start == start) &&
            (a != null ==> index.live[k] == a && a.start == start)
  {
    AgreeMatches(index.live, v);
    OrderedViews(index.live, v);
    a := index.Newest(start);
  }
}
