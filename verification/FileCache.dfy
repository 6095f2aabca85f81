/** The splitter's cache of open files.  What is written through an open handle may stay in
    its buffer until the handle is closed; the least recently used handle is closed to make
    room. */
module FileCache {
  import opened StoreFiles

  datatype Handle = Handle(buffer: seq<FileLine>, tick: nat)

  /** The files and the open handles at some moment. */
  datatype Files = Files(disk: map<Path, seq<FileLine>>, handles: map<Path, Handle>) {
    /** What a file holds once everything is written. */
    function Content(p: Path): (s: seq<FileLine>)
    {
      (if p in disk then disk[p] else []) + (if p in handles then handles[p].buffer else [])
    }
  }

  /** Every file holds what it held. */
  ghost predicate Unchanged(f: Files, g: Files)
  {
    forall q :: g.Content(q) == f.Content(q)
  }

  /** No file but `p` holds anything else than before. */
  ghost predicate SameBut(f: Files, g: Files, p: Path)
  {
    forall q :: q != p ==> g.Content(q) == f.Content(q)
  }

  /** `p` is gone, and the rest is as before. */
  ghost predicate Dropped(f: Files, g: Files, p: Path)
  {
    (forall q :: q in g.disk <==> q in f.disk && q != p) && (forall q :: q in g.handles ==> q in f.handles) &&
    SameBut(f, g, p)
  }

  /** `q` holds what `p` held, `p` is gone, and the rest is as before. */
  ghost predicate Renamed(f: Files, g: Files, p: Path, q: Path)
  {
    (forall r :: r in g.disk <==> (r in f.disk && r != p) || r == q) && (forall r :: r in g.handles ==> r in f.handles) &&
    g.Content(q) == f.Content(p) && forall r :: r != p && r != q ==> g.Content(r) == f.Content(r)
  }

  /** What appending to a file does to the files. */
  ghost predicate Appended(f: Files, g: Files, p: Path, lines: seq<FileLine>)
  {
    (forall q :: q in g.disk <==> q in f.disk || q == p) && (forall q :: q in g.handles ==> q in f.handles || q == p) &&
    g.Content(p) == f.Content(p) + lines && SameBut(f, g, p)
  }

  /** The number of the latest write to a file, and 0 if there was none. */
  function LastUse(uses: seq<Path>, p: Path): (n: nat)
  {
    if uses == [] then 0
    else if uses[|uses|-1] == p then |uses|
    else LastUse(uses[..|uses|-1], p)
  }

  lemma {:induction false} LastUseAppend(uses: seq<Path>, p: Path, q: Path)
    ensures LastUse(uses + [p], q) == if q == p then |uses| + 1 else LastUse(uses, q)
  {
    assert (uses + [p])[..|uses|] == uses;
  }

  class Cache {
    const maxOpen: nat
    var disk: map<Path, seq<FileLine>>
    var handles: map<Path, Handle>
    var tick: nat
    /** The files written to so far, in order. */
    ghost var uses: seq<Path>

    /** Ticks tell when each handle was last used. */
    ghost predicate Valid()
      reads this
    {
      Shaped() && forall p :: p in handles ==> handles[p].tick == LastUse(uses, p)
    }

    ghost predicate Shaped()
      reads this
    {
      |handles| <= maxOpen && handles.Keys <= disk.Keys && tick == |uses|
    }

    /** The same but for the file that is to be written to. */
    ghost predicate ValidBut(p: Path)
      reads this
    {
      Shaped() && LastUse(uses, p) == tick && forall q :: q in handles && q != p ==> handles[q].tick == LastUse(uses, q)
    }

    ghost function Now(): (f: Files)
      reads this
    {
      Files(disk, handles)
    }

    ghost function Content(p: Path): (s: seq<FileLine>)
      reads this
    {
      Now().Content(p)
    }

    constructor (maxOpen: nat)
      ensures Valid() && this.maxOpen == maxOpen && disk == map[] && handles == map[] && uses == []
    {
      this.maxOpen := maxOpen;
      disk, handles, tick, uses := map[], map[], 0, [];
    }

    /** Close the handle of a file, if it is open. */
    method ClosePath(p: Path)
      requires Valid()
      modifies this`disk, this`handles
      ensures Valid() && handles == old(handles) - {p} && disk.Keys == old(disk).Keys
      ensures Unchanged(old(Now()), Now())
      ensures p in disk ==> disk[p] == old(Content(p))
      ensures forall q :: q in disk && q != p ==> disk[q] == old(disk)[q]
    {
      if p in handles {
        disk := disk[p := disk[p] + handles[p].buffer];
        handles := handles - {p};
      }
      assert p !in handles;
      forall q ensures Now().Content(q) == old(Now()).Content(q) {
        if q == p && q in disk { assert disk[p] + [] == disk[p]; }
      }
    }

    /** The path whose handle was used least recently. */
    method LeastRecent() returns (lru: Path)
      requires handles != map[]
      ensures lru in handles && forall p :: p in handles ==> handles[lru].tick <= handles[p].tick
    {
      var rest := handles.Keys;
      assert exists p :: p in handles;
      lru :| lru in rest;
      rest := rest - {lru};
      while rest != {}
        invariant rest <= handles.Keys && lru in handles
        invariant forall p :: p in handles && p !in rest ==> handles[lru].tick <= handles[p].tick
        decreases |rest|
      {
        var p :| p in rest;
        if handles[p].tick < handles[lru].tick {
          lru := p;
        }
        rest := rest - {p};
      }
    }

    /** Make room for one more handle; there is no room to make in a cache of size 0. */
    method EvictIfNeeded() returns (ok: bool)
      requires Valid()
      modifies this`disk, this`handles
      ensures Valid() && (ok <==> maxOpen > 0) && (ok ==> |handles| < maxOpen)
      ensures !ok ==> disk == old(disk) && handles == old(handles)
      ensures disk.Keys == old(disk).Keys && Unchanged(old(Now()), Now())
      ensures old(|handles|) < maxOpen ==> handles == old(handles)
      ensures ok && old(|handles|) >= maxOpen ==>
                exists lru :: lru in old(handles) && handles == old(handles) - {lru} &&
                  forall p :: p in old(handles) ==> LastUse(uses, lru) <= LastUse(uses, p)
    {
      hide LastUse;
      if |handles| < maxOpen {
        return true;
      }
      if |handles| == 0 {
        return false;
      }
      var lru := LeastRecent();
      disk := disk[lru := disk[lru] + handles[lru].buffer];
      handles := handles - {lru};
      assert handles.Keys == old(handles).Keys - {lru};
      return true;
    }

    /** Create a file unless it is there. */
    method Create(p: Path)
      requires ValidBut(p) && p !in handles
      modifies this`disk
      ensures ValidBut(p) && disk.Keys == old(disk).Keys + {p} && Unchanged(old(Now()), Now())
    {
      hide LastUse;
      if p !in disk {
        disk := disk[p := []];
      }
    }

    /** A new handle, with an empty buffer. */
    method AddHandle(p: Path)
      requires ValidBut(p) && p !in handles && |handles| < maxOpen && p in disk
      modifies this`handles
      ensures Valid() && handles.Keys == old(handles).Keys + {p} && Unchanged(old(Now()), Now())
    {
      hide LastUse;
      handles := handles[p := Handle([], tick)];
      assert handles.Keys == old(handles).Keys + {p};
      assert disk[p] + [] == disk[p];
    }

    /** Open a file for appending; it is created if need be. */
    method Open(p: Path)
      requires ValidBut(p) && p !in handles && |handles| < maxOpen
      modifies this`disk, this`handles
      ensures Valid() && disk.Keys == old(disk).Keys + {p} && handles.Keys == old(handles).Keys + {p}
      ensures Unchanged(old(Now()), Now())
    {
      hide LastUse;
      Create(p);
      AddHandle(p);
    }

    /** Note that a handle is used now. */
    method Touch(p: Path)
      requires ValidBut(p) && p in handles
      modifies this`handles
      ensures Valid() && handles.Keys == old(handles).Keys
      ensures Unchanged(old(Now()), Now())
    {
      hide LastUse;
      handles := handles[p := handles[p].(tick := tick)];
      assert handles.Keys == old(handles).Keys;
    }

    method Advance(p: Path)
      requires Valid()
      modifies this`tick, this`uses
      ensures ValidBut(p) && uses == old(uses) + [p]
    {
      tick := tick + 1;
      forall q ensures LastUse(uses + [p], q) == if q == p then |uses| + 1 else LastUse(uses, q) {
        LastUseAppend(uses, p, q);
      }
      uses := uses + [p];
    }

    /** See that the file is open and its handle counts as used now. */
    method MakeReady(p: Path) returns (ok: bool)
      requires Valid()
      modifies this
      ensures Valid() && (ok <==> maxOpen > 0) && Unchanged(old(Now()), Now()) && uses == old(uses) + [p]
      ensures ok ==> p in handles && disk.Keys == old(disk).Keys + {p} && handles.Keys <= old(handles).Keys + {p}
      ensures !ok ==> disk == old(disk) && handles == old(handles)
    {
      Advance(p);
      if p in handles {
        ok := true;
        assert |handles| > 0 by { assert p in handles.Keys; }
        Touch(p);
      } else {
        ok := EvictIfNeeded();
        if ok {
          Open(p);
        }
      }
    }

    /** Append to a file.  With room for at least one handle, this and nothing else happens to
        the contents of the files, whatever is evicted. */
    method WriteLine(p: Path, lines: seq<FileLine>) returns (ok: bool)
      requires Valid()
      modifies this
      ensures Valid() && (ok <==> maxOpen > 0) && uses == old(uses) + [p]
      ensures ok ==> Appended(old(Now()), Now(), p, lines)
      ensures !ok ==> disk == old(disk) && handles == old(handles)
    {
      ok := MakeReady(p);
      if ok {
        Append(p, lines);
      }
    }

    method Append(p: Path, lines: seq<FileLine>)
      requires Valid() && p in handles
      modifies this`handles
      ensures Valid() && disk == old(disk) && handles.Keys == old(handles).Keys
      ensures Appended(old(Now()), Now(), p, lines)
    {
      var h := handles[p];
      handles := handles[p := h.(buffer := h.buffer + lines)];
      assert disk[p] + (h.buffer + lines) == disk[p] + h.buffer + lines;
      assert handles.Keys == old(handles).Keys;
    }

    /** Close every handle. */
    method CloseAll()
      requires Valid()
      modifies this`disk, this`handles
      ensures Valid() && handles == map[] && disk.Keys == old(disk).Keys
      ensures Unchanged(old(Now()), Now())
    {
      while handles != map[]
        invariant Valid() && disk.Keys == old(disk).Keys
        invariant Unchanged(old(Now()), Now())
        decreases |handles|
      {
        assert exists p :: p in handles;
        var p :| p in handles;
        ghost var before := handles.Keys;
        ClosePath(p);
        assert handles.Keys == before - {p};
      }
    }

    /** Rename a closed file, replacing the target. */
    method Replace(p: Path, q: Path)
      requires Valid() && p in disk && p !in handles && q !in handles && p != q
      modifies this`disk, this`handles
      ensures Valid() && handles == old(handles) && disk == (old(disk) - {p})[q := old(disk)[p]]
      ensures Renamed(old(Now()), Now(), p, q)
    {
      disk := (disk - {p})[q := disk[p]];
    }

    /** Delete a closed file, if it exists. */
    method Unlink(p: Path)
      requires Valid() && p !in handles
      modifies this`disk, this`handles
      ensures Valid() && handles == old(handles) && disk == old(disk) - {p}
      ensures SameBut(old(Now()), Now(), p)
    {
      disk := disk - {p};
    }

    /** Close and delete. */
    method Drop(p: Path)
      requires Valid()
      modifies this`disk, this`handles
      ensures Valid() && Dropped(old(Now()), Now(), p)
    {
      ClosePath(p);
      Unlink(p);
    }

    /** Close and rename. */
    method Promote(p: Path, q: Path)
      requires Valid() && p in disk && q !in handles && p != q
      modifies this`disk, this`handles
      ensures Valid() && Renamed(old(Now()), Now(), p, q)
    {
      ClosePath(p);
      Replace(p, q);
    }
  }
}
