/** From log to table: what splitting a log and converting its files gives, in terms of the log
    alone. */
module Memlog {
  import opened Options
  import opened StoreFiles
  import opened LogSplit
  import opened LogRun
  import opened LogStack
  import opened LogOwners
  import opened LogSplitter
  import opened LogDriver
  import opened Parquet

  // ------------------------------------------------------------------ stack lines

  lemma {:induction false} RStripBlank(s: string, c: char)
    requires Blank(c)
    ensures RStrip(s + [c]) == RStrip(s)
  {
    assert (s + [c])[..|s|] == s;
  }

  lemma {:induction false} RStripKeepsFront(c: char, s: string)
    requires RStrip(s) != ""
    ensures RStrip([c] + s) == [c] + RStrip(s)
    decreases |s|
  {
    var t := [c] + s;
    assert t[|t|-1] == s[|s|-1];
    if Blank(s[|s|-1]) {
      var u := s[..|s|-1];
      assert t[..|t|-1] == [c] + u;
      RStripKeepsFront(c, u);
    }
  }

  lemma {:induction false} RStripTwice(s: string)
    ensures RStrip(RStrip(s)) == RStrip(s)
  {
    if s != "" && Blank(s[|s|-1]) { RStripTwice(s[..|s|-1]); }
  }

  /** A stack line is read back as the log line without surrounding blanks. */
  lemma {:induction false} ReadBackIs(text: string)
    requires RStrip(text) != ""
    ensures ReadBack(RStrip(text)) == Strip(text)
  {
    var t := RStrip(text);
    RStripTwice(text);
    RStripBlank(" " + t, '\n');
    RStripKeepsFront(' ', t);
    assert (" " + t + "\n") == ((" " + t) + ['\n']);
    assert ([' '] + t)[1..] == t;
  }

  /** The stack of an allocation as the table shows it. */
  function ShownStack(stack: seq<string>): (s: string)
  {
    Parquet.Join(Stripped(stack))
  }

  function Stripped(stack: seq<string>): (s: seq<string>)
    ensures |s| == |stack| && forall i :: 0 <= i < |s| ==> s[i] == Strip(stack[i])
  {
    seq(|stack|, i requires 0 <= i < |stack| => Strip(stack[i]))
  }

  /** Lines gathered from the log are right-stripped and not blank. */
  lemma {:induction false} GatheredLines(log: seq<Line>, k: Key, i: nat)
    requires i < |StackOf(log, k)|
    ensures RStrip(StackOf(log, k)[i]) == StackOf(log, k)[i] != ""
  {
    var before, last := log[..|log|-1], log[|log|-1];
    if i < |StackOf(before, k)| {
      GatheredLines(before, k, i);
    } else {
      RStripTwice(last.text);
    }
  }

  // ------------------------------------------------------------------ an allocation's rows

  /** The rows of the table for one allocation, from the log: each store given to it, in order. */
  function ExpectedRows(log: seq<Line>, k: Key, kind: Kind, stores: seq<FileLine>): (rows: seq<TableRow>)
    requires forall i :: 0 <= i < |stores| ==> stores[i].Row?
    ensures |rows| == |stores|
    ensures forall i :: 0 <= i < |rows| ==>
              rows[i] == TableRow(k.start, SizeOf(log, k), kind, k.usage, ShownStack(StackOf(log, k)),
                                  stores[i].offset, stores[i].value)
  {
    seq(|stores|, i requires 0 <= i < |stores| =>
      TableRow(k.start, SizeOf(log, k), kind, k.usage, ShownStack(StackOf(log, k)), stores[i].offset, stores[i].value))
  }

  lemma {:induction false} RowsAreRows(lines: seq<FileLine>, i: nat)
    requires i < |Rows(lines)|
    ensures Rows(lines)[i].Row?
  {
    var front := lines[..|lines|-1];
    if i < |Rows(front)| { RowsAreRows(front, i); }
  }

  lemma {:induction false} TableRowsAre(p: Path, stack: string, lines: seq<FileLine>, i: nat)
    requires p.Stores?
    ensures |TableRows(p, stack, lines)| == |Rows(lines)|
    ensures i < |Rows(lines)| ==> Rows(lines)[i].Row? && TableRows(p, stack, lines)[i] == ToRow(p, stack, Rows(lines)[i])
  {
    if lines != [] {
      var front := lines[..|lines|-1];
      TableRowsAre(p, stack, front, i);
    }
  }

  lemma {:induction false} HeaderOfFile(stack: seq<string>, rows: seq<FileLine>)
    requires forall i :: 0 <= i < |rows| ==> rows[i].Row?
    ensures HeaderLength(Heads(stack) + rows) == |stack|
  {
    HeaderLengthIs(Heads(stack) + rows, |stack|);
  }

  lemma {:induction false} StackTextOf(log: seq<Line>, k: Key, rows: seq<FileLine>)
    requires forall i :: 0 <= i < |rows| ==> rows[i].Row?
    ensures StackText(Heads(StackOf(log, k)) + rows) == ShownStack(StackOf(log, k))
  {
    var stack := StackOf(log, k);
    var lines := Heads(stack) + rows;
    HeaderOfFile(stack, rows);
    forall i | 0 <= i < |stack| ensures ReadBack(lines[i].text) == Strip(stack[i]) {
      GatheredLines(log, k, i);
      ReadBackIs(stack[i]);
    }
    assert StackLines(lines, |stack|) == Stripped(stack);
  }

  // ------------------------------------------------------------------ the files

  /** Which finished allocations have a file, and what is in it. */
  lemma {:induction false} FileOfAlloc(done: seq<Alloc>, i: nat)
    requires forall i, j :: 0 <= i < j < |done| ==> done[i].Id() != done[j].Id()
    requires i < |done| && Rows(done[i].body) != []
    ensures NameOf(done[i]) in FilesOf(done) && FilesOf(done)[NameOf(done[i])] == done[i].body
    decreases |done|
  {
    var front, last := done[..|done|-1], done[|done|-1];
    if i < |front| {
      FileOfAlloc(front, i);
      assert done[i].Id() != last.Id();
    }
  }

  lemma {:induction false} AllocOfFile(done: seq<Alloc>, p: Path) returns (i: nat)
    requires p in FilesOf(done)
    ensures i < |done| && p == NameOf(done[i]) && Rows(done[i].body) != []
  {
    var front, last := done[..|done|-1], done[|done|-1];
    if Rows(last.body) != [] && p == NameOf(last) {
      i := |front|;
    } else {
      i := AllocOfFile(front, p);
    }
  }

  // ------------------------------------------------------------------ end to end

  lemma {:induction false} RowsOfFile(log: seq<Line>, s: State, a: Alloc)
    requires WellFormed(log) && Run(log) == Success(s) && a in Finished(s)
    ensures forall i :: 0 <= i < |Rows(a.body)| ==> Rows(a.body)[i].Row?
    ensures MemberRows(Member(NameOf(a), a.body)) == ExpectedRows(log, a.Id(), KindOf(Rows(a.body)), Rows(a.body))
  {
    forall i | 0 <= i < |Rows(a.body)| ensures Rows(a.body)[i].Row? { RowsAreRows(a.body, i); }
    StacksComeFirst(log, s);
    AllocsAreHeaders(log, s, a.Id());
    StackTextOf(log, a.Id(), Rows(a.body));
    var p, text := NameOf(a), StackText(a.body);
    var table, expected := TableRows(p, text, a.body), ExpectedRows(log, a.Id(), KindOf(Rows(a.body)), Rows(a.body));
    TableRowsAre(p, text, a.body, 0);
    forall i | 0 <= i < |table| ensures table[i] == expected[i] { TableRowsAre(p, text, a.body, i); }
    assert table == expected;
  }

  /** The rows that the log gives for a use of an address: the stores it received, in log order,
      with the size and stack of its ALLOC block and the alignment of the stores. */
  function LogRows(log: seq<Line>, owners: seq<Option<Key>>, k: Key): (rows: seq<TableRow>)
    requires |log| == |owners|
  {
    var stores := Received(log, owners, k);
    ReceivedAreRows(log, owners, k);
    ExpectedRows(log, k, KindOf(stores), stores)
  }

  lemma {:induction false} ReceivedAreRows(log: seq<Line>, owners: seq<Option<Key>>, k: Key)
    requires |log| == |owners|
    ensures forall i :: 0 <= i < |Received(log, owners, k)| ==> Received(log, owners, k)[i].Row?
  {
    if log != [] { ReceivedAreRows(log[..|log|-1], owners[..|log|-1], k); }
  }

  /** The archive holds exactly the given files, in some order. */
  ghost predicate Archives(ms: seq<Member>, files: map<Path, seq<FileLine>>)
  {
    (forall i :: 0 <= i < |ms| ==> ms[i].path in files && ms[i].lines == files[ms[i].path]) &&
    (forall i, j :: 0 <= i < j < |ms| ==> ms[i].path != ms[j].path) &&
    forall p :: p in files ==> exists i :: 0 <= i < |ms| && ms[i].path == p
  }

  function KeyOf(m: Member): (k: Key)
  {
    Key(m.path.start, m.path.usage)
  }

  lemma {:induction false} MemberOf(log: seq<Line>, s: State, ms: seq<Member>, a: Alloc, i: nat)
    requires WellFormed(log) && Run(log) == Success(s) && Archives(ms, FilesOf(Finished(s)))
    requires a in Finished(s) && Rows(a.body) != [] && i < |ms| && ms[i].path == NameOf(a)
    ensures |log| == |s.owners| && MemberRows(ms[i]) == LogRows(log, s.owners, a.Id())
    ensures Received(log, s.owners, a.Id()) != []
  {
    EveryStoreOnce(log);
    var all := Finished(s);
    var j :| 0 <= j < |all| && all[j] == a;
    FileOfAlloc(all, j);
    RowsOfFile(log, s, a);
    ReceivedAreRows(log, s.owners, a.Id());
    assert ms[i] == Member(NameOf(a), a.body);
  }

  /** From log to table, one way: the rows of each file of the archive are those that the log
      gives for one use of an address. */
  lemma {:induction false} FileIsAllocation(log: seq<Line>, s: State, ms: seq<Member>, i: nat) returns (k: Key)
    requires WellFormed(log) && Run(log) == Success(s) && Archives(ms, FilesOf(Finished(s))) && i < |ms|
    ensures ms[i].path.Stores? && k == KeyOf(ms[i])
    ensures 1 <= k.usage <= UsedIn(log, k.start) && |log| == |s.owners| && Received(log, s.owners, k) != []
    ensures MemberRows(ms[i]) == LogRows(log, s.owners, k)
  {
    var all := Finished(s);
    var j := AllocOfFile(all, ms[i].path);
    MemberOf(log, s, ms, all[j], i);
    k := all[j].Id();
    AllocsAreHeaders(log, s, k);
  }

  /** And the other way: each use of an address that received a store has one file in the
      archive, and that has its rows. */
  lemma {:induction false} AllocationHasFile(log: seq<Line>, s: State, ms: seq<Member>, k: Key) returns (i: nat)
    requires WellFormed(log) && Run(log) == Success(s) && Archives(ms, FilesOf(Finished(s)))
    requires |log| == |s.owners| && 1 <= k.usage <= UsedIn(log, k.start) && Received(log, s.owners, k) != []
    ensures i < |ms| && MemberRows(ms[i]) == LogRows(log, s.owners, k)
    ensures ms[i].path.Stores? && forall j :: 0 <= j < |ms| ==> (KeyOf(ms[j]) == k <==> j == i)
  {
    AllocsAreHeaders(log, s, k);
    EveryStoreOnce(log);
    var all := Finished(s);
    var a :| a in all && a.Id() == k;
    var l :| 0 <= l < |all| && all[l] == a;
    FileOfAlloc(all, l);
    i :| 0 <= i < |ms| && ms[i].path == NameOf(a);
    MemberOf(log, s, ms, a, i);
    forall j | 0 <= j < |ms| && KeyOf(ms[j]) == k ensures j == i {
      var m := AllocOfFile(all, ms[j].path);
      assert all[m].Id() == k;
      assert m == l;
    }
  }

  // ------------------------------------------------------------------ the whole table

  /** The rows of a table for a use of an address, in order. */
  function Of(rows: seq<TableRow>, k: Key): (r: seq<TableRow>)
  {
    if rows == [] then []
    else
      var rest, last := Of(rows[..|rows|-1], k), rows[|rows|-1];
      if Key(last.addr, last.generation) == k then rest + [last] else rest
  }

  lemma {:induction false} OfConcat(x: seq<TableRow>, y: seq<TableRow>, k: Key)
    ensures Of(x + y, k) == Of(x, k) + Of(y, k)
    decreases |y|
  {
    if y == [] {
      assert x + y == x;
    } else {
      var front := y[..|y|-1];
      OfConcat(x, front, k);
      assert (x + y)[..|x + y|-1] == x + front;
    }
  }

  /** The rows of a file are all those of one use of an address. */
  lemma {:induction false} OfTableRows(p: Path, stack: string, lines: seq<FileLine>, k: Key)
    requires p.Stores?
    ensures Of(TableRows(p, stack, lines), k) ==
            if Key(p.start, p.usage) == k then TableRows(p, stack, lines) else []
  {
    if lines != [] {
      var front, last := lines[..|lines|-1], lines[|lines|-1];
      OfTableRows(p, stack, front, k);
      if last.Row? {
        var rest, row := TableRows(p, stack, front), ToRow(p, stack, last);
        assert (rest + [row])[..|rest|] == rest;
      }
    }
  }

  lemma {:induction false} OfMember(m: Member, k: Key)
    ensures Of(MemberRows(m), k) == if m.path.Stores? && KeyOf(m) == k then MemberRows(m) else []
  {
    if m.path.Stores? { OfTableRows(m.path, StackText(m.lines), m.lines, k); }
  }

  lemma {:induction false} OfNoMember(ms: seq<Member>, k: Key)
    requires forall i :: 0 <= i < |ms| ==> KeyOf(ms[i]) != k
    ensures Of(ArchiveRows(ms), k) == []
  {
    if ms != [] {
      var front, last := ms[..|ms|-1], ms[|ms|-1];
      OfNoMember(front, k);
      OfMember(last, k);
      OfConcat(ArchiveRows(front), MemberRows(last), k);
    }
  }

  lemma {:induction false} OfOneMember(ms: seq<Member>, i: nat, k: Key)
    requires i < |ms| && ms[i].path.Stores? && forall j :: 0 <= j < |ms| ==> (KeyOf(ms[j]) == k <==> j == i)
    ensures Of(ArchiveRows(ms), k) == MemberRows(ms[i])
  {
    var front, last := ms[..|ms|-1], ms[|ms|-1];
    OfConcat(ArchiveRows(front), MemberRows(last), k);
    OfMember(last, k);
    if i == |front| {
      OfNoMember(front, k);
    } else {
      OfOneMember(front, i, k);
    }
  }

  /** Only allocations of the log receive stores. */
  lemma {:induction false} ReceiverIsOwner(log: seq<Line>, owners: seq<Option<Key>>, k: Key) returns (i: nat)
    requires |log| == |owners| && Received(log, owners, k) != []
    ensures i < |log| && log[i].Store? && owners[i] == Some(k)
  {
    var n := |log| - 1;
    if log[n].Store? && owners[n] == Some(k) {
      i := n;
    } else {
      i := ReceiverIsOwner(log[..n], owners[..n], k);
    }
  }

  lemma {:induction false} ReceiverWasAllocated(log: seq<Line>, s: State, k: Key)
    requires Run(log) == Success(s) && |log| == |s.owners| && Received(log, s.owners, k) != []
    ensures 1 <= k.usage <= UsedIn(log, k.start)
  {
    EveryStoreOnce(log);
    AllocsAreHeaders(log, s, k);
    var i := ReceiverIsOwner(log, s.owners, k);
    assert Owned(log[i], s.owners[i], Finished(s));
  }

  /** The rows of the archive for a use of an address, whichever it is, are those that the log
      gives for it: none missing, none added, in log order. */
  lemma {:induction false} ArchiveIsLog(log: seq<Line>, s: State, ms: seq<Member>, k: Key)
    requires WellFormed(log) && Run(log) == Success(s) && Archives(ms, FilesOf(Finished(s)))
    ensures |log| == |s.owners| && Of(ArchiveRows(ms), k) == LogRows(log, s.owners, k)
  {
    EveryStoreOnce(log);
    if Received(log, s.owners, k) != [] {
      ReceiverWasAllocated(log, s, k);
      var i := AllocationHasFile(log, s, ms, k);
      OfOneMember(ms, i, k);
    } else {
      forall i | 0 <= i < |ms| ensures KeyOf(ms[i]) != k {
        var l := FileIsAllocation(log, s, ms, i);
      }
      OfNoMember(ms, k);
      assert LogRows(log, s.owners, k) == [];
    }
  }

  /** The table holds for every use of every address exactly the log's rows for it, each store
      being the row of the live use it belongs to. */
  ghost predicate TableOf(rows: seq<TableRow>, log: seq<Line>)
  {
    exists owners :: OwnersOf(log, owners) && RowsOfAll(rows, log, owners)
  }

  ghost predicate RowsOfAll(rows: seq<TableRow>, log: seq<Line>, owners: seq<Option<Key>>)
  {
    |log| == |owners| && forall k: Key :: Of(rows, k) == LogRows(log, owners, k)
  }

  lemma {:induction false} ArchiveIsTable(log: seq<Line>, ms: seq<Member>)
    requires WellFormed(log) && Run(log).Success? && Archives(ms, FilesOf(Finished(Run(log).value)))
    ensures TableOf(ArchiveRows(ms), log)
  {
    hide OwnersOf, LogRows, Of, Archives, WellFormed, Run;
    var s := Run(log).value;
    EveryStoreOnce(log);
    OwnersFromLog(log, s);
    forall k: Key ensures Of(ArchiveRows(ms), k) == LogRows(log, s.owners, k) { ArchiveIsLog(log, s, ms, k); }
  }

  /** Put the files into an archive, in any order. */
  method Pack(files: map<Path, seq<FileLine>>) returns (ms: seq<Member>)
    ensures Archives(ms, files)
  {
    ms := [];
    var todo := files.Keys;
    while todo != {}
      invariant todo <= files.Keys
      invariant forall i :: 0 <= i < |ms| ==>
                  ms[i].path in files && ms[i].path !in todo && ms[i].lines == files[ms[i].path]
      invariant forall i, j :: 0 <= i < j < |ms| ==> ms[i].path != ms[j].path
      invariant forall p :: p in files && p !in todo ==> exists i :: 0 <= i < |ms| && ms[i].path == p
      decreases todo
    {
      var p :| p in todo;
      ghost var before := ms;
      ms := ms + [Member(p, files[p])];
      todo := todo - {p};
      forall q | q in files && q !in todo ensures exists i :: 0 <= i < |ms| && ms[i].path == q {
        if q == p {
          assert ms[|before|].path == q;
        } else {
          var i :| 0 <= i < |before| && before[i].path == q;
          assert ms[i].path == q;
        }
      }
    }
  }

  /** From log to table: splitting, packing and converting.  With room for one open file this
      succeeds exactly when every store has a live use of an address to go to, and the batches
      of a well-formed log decode to a table that holds, for every use of every address,
      exactly the stores that belong to it, in log order. */
  method LogToTable(log: seq<Line>, maxOpen: nat) returns (r: Result<seq<Batch>>)
    ensures r.Success? ==> AllFine(r.value)
    ensures r.Success? && WellFormed(log) ==> TableOf(DecodeAll(r.value), log)
    ensures maxOpen > 0 ==> (r.Success? <==> AllHeld(log))
  {
    var files := ParseLog(log, maxOpen);
    if files.Failure? {
      return Failure;
    }
    var ms := Pack(files.value);
    var batches, allocs, stores := ConvertArchive(ms);
    if WellFormed(log) {
      ArchiveIsTable(log, ms);
    }
    return Success(batches);
  }
}
