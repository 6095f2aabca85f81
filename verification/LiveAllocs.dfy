/** A live allocation of the log splitter, as an object: it counts its stores, watches their
    alignment and writes them to its file. */
module LiveAllocs {
  import opened StoreFiles
  import opened LogSplit
  import opened LogRun
  import FileCache

  // ------------------------------------------------------------------ allocations

  class LiveAlloc {
    const start: nat
    const size: nat
    const usage: nat
    var storeCount: nat
    var aligned32: bool
    var aligned64: bool
    var stackLines: seq<string>
    ghost var body: seq<FileLine>

    ghost predicate Valid()
      reads this
    {
      storeCount == |Rows(body)| && (aligned32 <==> AllMultiples(Rows(body), 4)) &&
      (aligned64 <==> AllMultiples(Rows(body), 8))
    }

    ghost function View(): (a: Alloc)
      reads this
    {
      Alloc(start, size, usage, stackLines, body)
    }

    constructor (start: nat, size: nat, usage: nat)
      ensures Valid() && View() == Alloc(start, size, usage, [], [])
      ensures this.start == start && this.size == size && this.usage == usage
    {
      this.start, this.size, this.usage := start, size, usage;
      storeCount, aligned32, aligned64, stackLines, body := 0, true, true, [], [];
    }

    function TmpPath(): (p: Path)
    {
      Tmp(start, size, usage)
    }

    /** Note a store and what it does to the alignment. */
    method Count(offset: nat, value: nat)
      requires Valid()
      modifies this
      ensures Valid() && body == old(body) + [Row(offset, value)] && stackLines == old(stackLines)
    {
      ghost var row := Row(offset, value);
      RowsAppend(body, row);
      MultiplesAppend(Rows(body), row, 4);
      MultiplesAppend(Rows(body), row, 8);
      body := body + [row];
      storeCount := storeCount + 1;
      if aligned32 && offset % 4 != 0 {
        aligned32 := false;
      }
      if aligned64 && offset % 8 != 0 {
        aligned64 := false;
      }
    }

    /** Append a store to the allocation's file. */
    method WriteStore(addr: nat, value: nat, cache: FileCache.Cache) returns (ok: bool)
      requires Valid() && cache.Valid()
      modifies this, cache
      ensures cache.Valid() && Valid() && stackLines == old(stackLines)
      ensures ok <==> start <= addr < start + size && cache.maxOpen > 0
      ensures ok ==> body == old(body) + [Row(addr - start, value)]
      ensures ok ==> FileCache.Appended(old(cache.Now()), cache.Now(), TmpPath(), [Row(addr - start, value)])
    {
      if !(start <= addr < start + size) {
        return false;
      }
      var offset := addr - start;
      ok := cache.WriteLine(TmpPath(), [Row(offset, value)]);
      if ok {
        Count(offset, value);
      }
    }

    ghost function Target(): (p: Path)
      reads this
    {
      Stores(start, size, KindOf(Rows(body)), usage)
    }

    /** Give the file its final name, or delete it if it has no store. */
    method CloseAndFinalize(cache: FileCache.Cache)
      requires Valid() && cache.Valid() && cache.Now().Content(TmpPath()) == body && Target() !in cache.handles
      modifies cache
      ensures cache.Valid()
      ensures Rows(body) == [] ==> FileCache.Dropped(old(cache.Now()), cache.Now(), TmpPath())
      ensures Rows(body) != [] ==> FileCache.Renamed(old(cache.Now()), cache.Now(), TmpPath(), Target())
    {
      if storeCount == 0 {
        cache.Drop(TmpPath());
      } else {
        assert TmpPath() in cache.disk;
        var kind := if aligned32 then (if aligned64 then Bits64 else Bits32) else Object;
        cache.Promote(TmpPath(), Stores(start, size, kind, usage));
      }
    }
  }

  lemma {:induction false} RowsAppend(body: seq<FileLine>, row: FileLine)
    requires row.Row?
    ensures Rows(body + [row]) == Rows(body) + [row]
  {
    assert (body + [row])[..|body|] == body;
  }

  lemma {:induction false} MultiplesAppend(rows: seq<FileLine>, row: FileLine, n: nat)
    requires n > 0 && row.Row?
    ensures AllMultiples(rows + [row], n) <==> AllMultiples(rows, n) && row.offset % n == 0
  {
    assert row in rows + [row];
    assert forall r :: r in rows ==> r in rows + [row];
  }
}
