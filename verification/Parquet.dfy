/** memlog's converter: the stores of all files become rows of a table, written in batches with
    the allocation stacks dictionary-encoded. */
module Parquet {
  import opened Options
  import opened StoreFiles
  import opened LogRun

  const BATCH_ROWS: nat := 0x10_0000

  /** A row of the table. */
  datatype TableRow = TableRow(addr: nat, size: nat, kind: Kind, generation: nat, stack: string, offset: nat, value: nat)

  // ------------------------------------------------------------------ what a file says

  function LStrip(s: string): (r: string)
  {
    if s != "" && Blank(s[0]) then LStrip(s[1..]) else s
  }

  function Strip(s: string): (r: string)
  {
    LStrip(RStrip(s))
  }

  function Join(lines: seq<string>): (s: string)
  {
    if |lines| == 0 then ""
    else if |lines| == 1 then lines[0]
    else Join(lines[..|lines|-1]) + "\n" + lines[|lines|-1]
  }

  /** Stripping takes the blanks from both ends and nothing else. */
  lemma {:induction false} StripIs(s: string) returns (i: nat, j: nat)
    ensures i <= j <= |s| && Strip(s) == s[i..j]
    ensures (forall k :: 0 <= k < i ==> Blank(s[k])) && forall k :: j <= k < |s| ==> Blank(s[k])
    ensures i < j ==> !Blank(s[i]) && !Blank(s[j-1])
  {
    hide Blank, RStrip, LStrip;
    j := RStripIs(s);
    var t := s[..j];
    i := LStripIs(t);
    assert t[i..] == s[i..j];
    assert forall k :: 0 <= k < j ==> t[k] == s[k];
  }

  lemma {:induction false} RStripIs(s: string) returns (j: nat)
    ensures j <= |s| && RStrip(s) == s[..j] && (j > 0 ==> !Blank(s[j-1])) && forall k :: j <= k < |s| ==> Blank(s[k])
  {
    hide Blank;
    j := |s|;
    if s != "" && Blank(s[|s|-1]) {
      j := RStripIs(s[..|s|-1]);
      assert s[..|s|-1][..j] == s[..j];
    }
  }

  lemma {:induction false} LStripIs(s: string) returns (i: nat)
    ensures i <= |s| && LStrip(s) == s[i..] && (i < |s| ==> !Blank(s[i])) && forall k :: 0 <= k < i ==> Blank(s[k])
  {
    hide Blank;
    i := 0;
    if s != "" && Blank(s[0]) {
      i := LStripIs(s[1..]);
      i := i + 1;
    }
  }

  ghost predicate OneLine(s: string)
  {
    forall k :: 0 <= k < |s| ==> s[k] != '\n'
  }

  lemma {:induction false} LastLine(a: string, x: string, b: string, y: string)
    requires a + "\n" + x == b + "\n" + y && OneLine(x) && OneLine(y)
    ensures a == b && x == y
  {
    var s, t := a + "\n" + x, b + "\n" + y;
    assert s[|a|] == '\n' && t[|b|] == '\n';
    assert forall k :: |a| < k < |s| ==> s[k] == x[k-|a|-1];
    assert forall k :: |b| < k < |t| ==> t[k] == y[k-|b|-1];
    assert |a| == |b|;
    assert a == s[..|a|] && b == t[..|b|] && x == s[|a|+1..] && y == t[|b|+1..];
  }

  lemma {:induction false} OneLineIff(p: seq<string>)
    requires p != [] && forall i :: 0 <= i < |p| ==> OneLine(p[i])
    ensures OneLine(Join(p)) <==> |p| == 1
  {
    if |p| > 1 { assert Join(p)[|Join(p[..|p|-1])|] == '\n'; }
  }

  /** Texts are joined by line ends, in order. */
  lemma {:induction false} JoinConcat(p: seq<string>, q: seq<string>)
    requires p != [] && q != []
    ensures Join(p + q) == Join(p) + "\n" + Join(q)
    decreases |q|
  {
    var n := |q| - 1;
    assert (p + q)[..|p|+n] == p + q[..n];
    if n > 0 {
      JoinConcat(p, q[..n]);
    } else {
      assert p + q[..n] == p;
    }
  }

  /** Different stacks have different texts, so a text stands for one stack. */
  lemma {:induction false} JoinTellsLines(p: seq<string>, q: seq<string>)
    requires p != [] && q != [] && Join(p) == Join(q)
    requires (forall i :: 0 <= i < |p| ==> OneLine(p[i])) && forall i :: 0 <= i < |q| ==> OneLine(q[i])
    ensures p == q
    decreases |p|
  {
    OneLineIff(p);
    OneLineIff(q);
    if |p| > 1 {
      var m, n := |p| - 1, |q| - 1;
      LastLine(Join(p[..m]), p[m], Join(q[..n]), q[n]);
      JoinTellsLines(p[..m], q[..n]);
      assert p == p[..m] + [p[m]] && q == q[..n] + [q[n]];
    }
  }

  /** How many lines of stack the file starts with. */
  function HeaderLength(lines: seq<FileLine>): (n: nat)
    ensures n <= |lines| && (n < |lines| ==> lines[n].Row?) && forall i :: 0 <= i < n ==> lines[i].Head?
  {
    if lines == [] || lines[0].Row? then 0 else 1 + HeaderLength(lines[1..])
  }

  /** A stack line as it is read back: written after "# " and before a line end. */
  function ReadBack(text: string): (s: string)
  {
    Strip(" " + text + "\n")
  }

  function StackLines(lines: seq<FileLine>, n: nat): (s: seq<string>)
    requires n <= |lines| && forall i :: 0 <= i < n ==> lines[i].Head?
    ensures |s| == n && forall i :: 0 <= i < n ==> s[i] == ReadBack(lines[i].text)
  {
    seq(n, i requires 0 <= i < n => ReadBack(lines[i].text))
  }

  function StackText(lines: seq<FileLine>): (s: string)
  {
    Join(StackLines(lines, HeaderLength(lines)))
  }

  function ToRow(p: Path, stack: string, r: FileLine): (row: TableRow)
    requires p.Stores? && r.Row?
  {
    TableRow(p.start, p.size, p.kind, p.usage, stack, r.offset, r.value)
  }

  /** The rows of some lines of a file. */
  function TableRows(p: Path, stack: string, lines: seq<FileLine>): (rows: seq<TableRow>)
    requires p.Stores?
  {
    if lines == [] then []
    else
      var rest, last := TableRows(p, stack, lines[..|lines|-1]), lines[|lines|-1];
      if last.Row? then rest + [ToRow(p, stack, last)] else rest
  }

  datatype Member = Member(path: Path, lines: seq<FileLine>)

  /** The rows of a file of the archive; other names are passed over. */
  function MemberRows(m: Member): (rows: seq<TableRow>)
  {
    if m.path.Stores? then TableRows(m.path, StackText(m.lines), m.lines) else []
  }

  function ArchiveRows(ms: seq<Member>): (rows: seq<TableRow>)
  {
    if ms == [] then [] else ArchiveRows(ms[..|ms|-1]) + MemberRows(ms[|ms|-1])
  }

  // ------------------------------------------------------------------ batches

  /** Parallel columns; kind and stack are indices into dictionaries. */
  datatype Columns = Columns(addr: seq<nat>, size: seq<nat>, kind: seq<nat>, generation: seq<nat>,
                             stack: seq<nat>, offset: seq<nat>, value: seq<nat>)

  const NOTHING: Columns := Columns([], [], [], [], [], [], [])

  datatype Batch = Batch(columns: Columns, dict: seq<string>)

  const KINDS: seq<Kind> := [Bits64, Bits32, Object]

  function KindIndex(k: Kind): (i: nat)
    ensures i < |KINDS| && KINDS[i] == k
  {
    match k
    case Bits64 => 0
    case Bits32 => 1
    case Object => 2
  }

  predicate WellSized(c: Columns)
  {
    |c.addr| == |c.size| == |c.kind| == |c.generation| == |c.stack| == |c.offset| == |c.value|
  }

  /** Columns of equal length with indices into the dictionaries. */
  predicate Readable(c: Columns, dict: seq<string>)
  {
    WellSized(c) && forall i :: 0 <= i < |c.offset| ==> c.kind[i] < |KINDS| && c.stack[i] < |dict|
  }

  function RowAt(c: Columns, dict: seq<string>, i: nat): (r: TableRow)
    requires Readable(c, dict) && i < |c.offset|
  {
    TableRow(c.addr[i], c.size[i], KINDS[c.kind[i]], c.generation[i], dict[c.stack[i]], c.offset[i], c.value[i])
  }

  /** The rows that columns stand for. */
  function Decode(c: Columns, dict: seq<string>): (rows: seq<TableRow>)
    requires Readable(c, dict)
    ensures |rows| == |c.offset| && forall i :: 0 <= i < |rows| ==> rows[i] == RowAt(c, dict, i)
  {
    seq(|c.offset|, i requires 0 <= i < |c.offset| => RowAt(c, dict, i))
  }

  function Add(c: Columns, r: TableRow, stackIndex: nat): (d: Columns)
  {
    Columns(c.addr + [r.addr], c.size + [r.size], c.kind + [KindIndex(r.kind)], c.generation + [r.generation],
            c.stack + [stackIndex], c.offset + [r.offset], c.value + [r.value])
  }

  lemma {:induction false} DecodeAdd(c: Columns, dict: seq<string>, r: TableRow, k: nat)
    requires Readable(c, dict) && k < |dict| && dict[k] == r.stack
    ensures Readable(Add(c, r, k), dict) && Decode(Add(c, r, k), dict) == Decode(c, dict) + [r]
  {
    var d := Add(c, r, k);
    forall i | 0 <= i < |d.offset| ensures d.kind[i] < |KINDS| && d.stack[i] < |dict| { }
    forall i | 0 <= i < |d.offset| ensures RowAt(d, dict, i) == (Decode(c, dict) + [r])[i] { }
  }

  /** A longer dictionary decodes the same. */
  lemma {:induction false} DecodeLonger(c: Columns, dict: seq<string>, more: seq<string>)
    requires Readable(c, dict) && dict <= more
    ensures Readable(c, more) && Decode(c, more) == Decode(c, dict)
  {
  }

  predicate BatchFine(b: Batch)
  {
    Readable(b.columns, b.dict) && 0 < |b.columns.offset| <= BATCH_ROWS
  }

  predicate AllFine(bs: seq<Batch>)
  {
    forall i :: 0 <= i < |bs| ==> BatchFine(bs[i])
  }

  /** Every batch but the last is as large as it may be. */
  predicate FullButLast(bs: seq<Batch>)
  {
    forall i :: 0 <= i < |bs| - 1 ==> |bs[i].columns.offset| == BATCH_ROWS
  }

  predicate AllFull(bs: seq<Batch>)
  {
    forall i :: 0 <= i < |bs| ==> |bs[i].columns.offset| == BATCH_ROWS
  }

  function DecodeAll(bs: seq<Batch>): (rows: seq<TableRow>)
    requires AllFine(bs)
  {
    if bs == [] then []
    else
      var last := bs[|bs|-1];
      DecodeAll(bs[..|bs|-1]) + Decode(last.columns, last.dict)
  }

  // ------------------------------------------------------------------ the converter

  /** The dictionary of stacks and its inverse. */
  ghost predicate DictRight(dict: seq<string>, indexOf: map<string, nat>)
  {
    (forall s :: s in indexOf ==> indexOf[s] < |dict| && dict[indexOf[s]] == s) &&
    forall i :: 0 <= i < |dict| ==> dict[i] in indexOf && indexOf[dict[i]] == i
  }

  class Converter {
    var buf: Columns
    var dict: seq<string>
    var indexOf: map<string, nat>
    var written: seq<Batch>

    ghost predicate Valid()
      reads this
    {
      Readable(buf, dict) && |buf.offset| < BATCH_ROWS && AllFine(written) && AllFull(written) && DictRight(dict, indexOf)
    }

    /** Everything taken in so far. */
    ghost function Output(): (rows: seq<TableRow>)
      requires Valid()
      reads this
    {
      DecodeAll(written) + Decode(buf, dict)
    }

    constructor ()
      ensures Valid() && Output() == []
    {
      buf, dict, indexOf, written := NOTHING, [], map[], [];
    }

    /** Write out the buffered rows with the dictionary as it is now; at the end, or when the
        buffer is full. */
    method Flush()
      requires Readable(buf, dict) && |buf.offset| <= BATCH_ROWS && AllFine(written) && AllFull(written)
      modifies this`buf, this`written
      ensures buf == NOTHING && AllFine(written) && FullButLast(written)
      ensures old(|buf.offset|) == BATCH_ROWS ==> AllFull(written)
      ensures DecodeAll(written) == DecodeAll(old(written)) + Decode(old(buf), dict)
    {
      if |buf.offset| != 0 {
        written := written + [Batch(buf, dict)];
        assert written[..|written|-1] == old(written);
        buf := NOTHING;
      } else {
        EmptyColumns(buf);
        assert Decode(buf, dict) == [];
        assert DecodeAll(written) + [] == DecodeAll(written);
      }
    }

    /** The index of a stack, entering it if it is new. */
    method Intern(stack: string) returns (k: nat)
      requires Valid()
      modifies this`dict, this`indexOf
      ensures Valid() && k < |dict| && dict[k] == stack && Output() == old(Output()) && old(dict) <= dict
    {
      if stack in indexOf {
        k := indexOf[stack];
      } else {
        k := |dict|;
        DecodeLonger(buf, dict, dict + [stack]);
        dict, indexOf := dict + [stack], indexOf[stack := k];
      }
    }

    /** Buffer a row; a full buffer is written out. */
    method AddRow(row: TableRow, k: nat)
      requires Valid() && k < |dict| && dict[k] == row.stack
      modifies this
      ensures Valid() && Output() == old(Output()) + [row] && dict == old(dict)
    {
      DecodeAdd(buf, dict, row, k);
      buf := Add(buf, row, k);
      ghost var rows := DecodeAll(written) + Decode(buf, dict);
      assert rows == old(Output()) + [row];
      if |buf.offset| >= BATCH_ROWS {
        Flush();
        assert Decode(NOTHING, dict) == [];
        assert rows + [] == rows;
      }
    }

    /** One line of a file: a store becomes a row, anything else is passed over.  `sidx` is the
        index of the file's stack once the file had a store. */
    method ConsumeLine(p: Path, stack: string, line: FileLine, sidx: Option<nat>) returns (k: Option<nat>)
      requires Valid() && p.Stores? && (sidx.Some? ==> sidx.value < |dict| && dict[sidx.value] == stack)
      modifies this
      ensures Valid() && (k.Some? ==> k.value < |dict| && dict[k.value] == stack)
      ensures k.Some? <==> sidx.Some? || line.Row?
      ensures Output() == old(Output()) + if line.Row? then [ToRow(p, stack, line)] else []
    {
      k := sidx;
      if line.Head? {
        assert Output() + [] == Output();
        return;
      }
      if k.None? {
        var i := Intern(stack);
        k := Some(i);
      }
      AddRow(ToRow(p, stack, line), k.value);
    }

    /** The lines of a file from `from` on. */
    method ConsumeBody(p: Path, stack: string, lines: seq<FileLine>, from: nat) returns (n: nat)
      requires Valid() && p.Stores? && from <= |lines| && forall i :: 0 <= i < from ==> lines[i].Head?
      modifies this
      ensures Valid() && Output() == old(Output()) + TableRows(p, stack, lines) && n == |TableRows(p, stack, lines)|
    {
      var i, sidx: Option<nat> := from, None;
      n := 0;
      NoRowsInHeader(p, stack, lines, from);
      assert old(Output()) + [] == old(Output());
      while i < |lines|
        invariant from <= i <= |lines| && Valid() && (sidx.Some? ==> sidx.value < |dict| && dict[sidx.value] == stack)
        invariant Output() == old(Output()) + TableRows(p, stack, lines[..i]) && n == |TableRows(p, stack, lines[..i])|
      {
        assert lines[..i+1][..i] == lines[..i];
        ghost var before, rows := Output(), TableRows(p, stack, lines[..i]);
        sidx := ConsumeLine(p, stack, lines[i], sidx);
        if lines[i].Row? {
          n := n + 1;
          assert old(Output()) + rows + [ToRow(p, stack, lines[i])] == old(Output()) + (rows + [ToRow(p, stack, lines[i])]);
        }
        i := i + 1;
      }
      assert lines[..i] == lines;
    }

    /** A file of the archive. */
    method ConvertMember(m: Member) returns (n: nat)
      requires Valid()
      modifies this
      ensures Valid() && Output() == old(Output()) + MemberRows(m) && n == |MemberRows(m)|
    {
      if !m.path.Stores? {
        assert Output() + [] == Output();
        return 0;
      }
      var stackLines, pos := ReadStackHeader(m.lines);
      n := ConsumeBody(m.path, Join(stackLines), m.lines, pos);
    }
  }

  /** The stack lines in front of the stores, and where the stores start. */
  method ReadStackHeader(lines: seq<FileLine>) returns (stack: seq<string>, pos: nat)
    ensures pos == HeaderLength(lines) && stack == StackLines(lines, pos)
  {
    stack, pos := [], 0;
    while pos < |lines| && lines[pos].Head?
      invariant 0 <= pos <= |lines| && |stack| == pos
      invariant forall i :: 0 <= i < pos ==> lines[i].Head? && stack[i] == ReadBack(lines[i].text)
    {
      stack := stack + [ReadBack(lines[pos].text)];
      pos := pos + 1;
    }
    HeaderLengthIs(lines, pos);
  }

  lemma {:induction false} HeaderLengthIs(lines: seq<FileLine>, n: nat)
    requires n <= |lines| && (n < |lines| ==> lines[n].Row?) && forall i :: 0 <= i < n ==> lines[i].Head?
    ensures HeaderLength(lines) == n
  {
    var m := HeaderLength(lines);
    assert m == n;
  }

  lemma {:induction false} NoRowsInHeader(p: Path, stack: string, lines: seq<FileLine>, n: nat)
    requires p.Stores? && n <= |lines| && forall i :: 0 <= i < n ==> lines[i].Head?
    ensures TableRows(p, stack, lines[..n]) == []
  {
    if n > 0 {
      NoRowsInHeader(p, stack, lines, n - 1);
      assert lines[..n][..n-1] == lines[..n-1];
    }
  }

  /** Number of files with stores. */
  function Filled(ms: seq<Member>): (n: nat)
  {
    if ms == [] then 0 else Filled(ms[..|ms|-1]) + if MemberRows(ms[|ms|-1]) == [] then 0 else 1
  }

  /** Take in all files of an archive. */
  method ConvertMembers(c: Converter, ms: seq<Member>) returns (allocs: nat, stores: nat)
    requires c.Valid() && c.Output() == []
    modifies c
    ensures c.Valid() && c.Output() == ArchiveRows(ms) && allocs == Filled(ms) && stores == |ArchiveRows(ms)|
  {
    hide MemberRows;
    var i := 0;
    allocs, stores := 0, 0;
    while i < |ms|
      invariant 0 <= i <= |ms| && c.Valid() && c.Output() == ArchiveRows(ms[..i])
      invariant allocs == Filled(ms[..i]) && stores == |ArchiveRows(ms[..i])|
    {
      assert ms[..i+1][..i] == ms[..i];
      var n := c.ConvertMember(ms[i]);
      stores := stores + n;
      if n != 0 {
        allocs := allocs + 1;
      }
      i := i + 1;
    }
    assert ms[..i] == ms;
  }

  /** Convert an archive: the batches written decode to the rows of its files, in order, and all
      but the last are exactly as large as the limit. */
  method ConvertArchive(ms: seq<Member>) returns (batches: seq<Batch>, allocs: nat, stores: nat)
    ensures AllFine(batches) && FullButLast(batches) && DecodeAll(batches) == ArchiveRows(ms)
    ensures allocs == Filled(ms) && stores == |ArchiveRows(ms)|
  {
    var c := new Converter();
    allocs, stores := ConvertMembers(c, ms);
    c.Flush();
    batches := c.written;
  }

  lemma {:induction false} EmptyColumns(c: Columns)
    requires WellSized(c) && |c.offset| == 0
    ensures c == NOTHING
  {
  }
}
