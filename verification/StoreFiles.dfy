/** The files of memlog's log splitter: one per allocation, holding the lines of its
    allocation stack (`Head`) and its stores (`Row`).  While an allocation is live its file
    has a temporary name. */
module StoreFiles {
  datatype Kind = Bits64 | Bits32 | Object

  datatype Path =
    | Tmp(start: nat, size: nat, usage: nat)
    | Stores(start: nat, size: nat, kind: Kind, usage: nat)

  datatype FileLine = Head(text: string) | Row(offset: nat, value: nat)

  /** The stores among the lines of a file, in order. */
  function Rows(lines: seq<FileLine>): (r: seq<FileLine>)
  {
    if lines == [] then []
    else
      var rest, last := Rows(lines[..|lines|-1]), lines[|lines|-1];
      if last.Row? then rest + [last] else rest
  }

  function Heads(stack: seq<string>): (r: seq<FileLine>)
    ensures |r| == |stack| && forall i :: 0 <= i < |r| ==> r[i] == Head(stack[i])
  {
    seq(|stack|, i requires 0 <= i < |stack| => Head(stack[i]))
  }

  lemma {:induction false} RowsConcat(x: seq<FileLine>, y: seq<FileLine>)
    ensures Rows(x + y) == Rows(x) + Rows(y)
    decreases |y|
  {
    if y == [] {
      assert x + y == x;
    } else {
      var front := y[..|y|-1];
      RowsConcat(x, front);
      assert (x + y)[..|x + y|-1] == x + front;
    }
  }

  lemma {:induction false} RowsOfHeads(stack: seq<string>)
    ensures Rows(Heads(stack)) == []
  {
    if stack != [] {
      var front := stack[..|stack|-1];
      RowsOfHeads(front);
      assert Heads(stack)[..|stack|-1] == Heads(front);
    }
  }

  /** The alignment class of an allocation's stores. */
  predicate AllMultiples(rows: seq<FileLine>, n: nat)
    requires n > 0
  {
    forall r :: r in rows ==> r.Row? && r.offset % n == 0
  }

  function KindOf(rows: seq<FileLine>): (k: Kind)
  {
    if AllMultiples(rows, 4) then (if AllMultiples(rows, 8) then Bits64 else Bits32) else Object
  }

  /** The class in terms of the offsets: 64-bit if all are multiples of 8, else 32-bit if all are
      multiples of 4, else none of both. */
  lemma {:induction false} KindIff(rows: seq<FileLine>)
    requires forall r :: r in rows ==> r.Row?
    ensures KindOf(rows) == Bits64 <==> forall i :: 0 <= i < |rows| ==> rows[i].offset % 8 == 0
    ensures KindOf(rows) == Object <==> exists i :: 0 <= i < |rows| && rows[i].offset % 4 != 0
  {
    if AllMultiples(rows, 8) {
      forall r | r in rows ensures r.offset % 4 == 0 {
        assert r.offset % 8 == 0;
      }
    }
    assert !AllMultiples(rows, 4) ==> exists r :: r in rows && r.offset % 4 != 0;
  }
}
