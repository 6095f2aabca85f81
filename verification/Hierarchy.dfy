/** Cachegrind's two cache levels and the counters an access updates. */
module Hierarchy {
  import opened Arith
  import opened CacheSim

  /** Accesses of one kind made by one source line, with first- and last-level misses. */
  class CacheCC {
    var a: nat
    var m1: nat
    var mL: nat
  }

  /** Does an instruction fetch stay within one line of both levels? */
  predicate IsIrNoX(a: nat, size: nat, i1Line: nat, llLine: nat)
    requires i1Line > 0
  {
    i1Line == llLine && a / i1Line == ((a + size - 1) % WORD) / i1Line
  }

  /** The histories of a first-level cache and of the last-level cache. */
  datatype Levels = Levels(l1: seq<nat>, ll: seq<nat>)

  datatype Geometry = Geometry(sets: nat, assoc: nat, lineSize: nat)
  {
    predicate Usable() { sets > 0 && lineSize > 0 }
  }

  datatype Outcome = Outcome(levels: Levels, missL1: bool, missLL: bool, ok: bool)

  /** What an access should do: look up the first level, and the last level only if the
      first level missed. */
  function Access(h: Levels, l1: Geometry, ll: Geometry, a: nat, size: nat): (o: Outcome)
    requires l1.Usable() && ll.Usable()
  {
    var bs1, bsL := Blocks(a, size, l1.lineSize), Blocks(a, size, ll.lineSize);
    if RefMisses(h.l1, bs1, l1.sets, l1.assoc) then
      Outcome(Levels(h.l1 + bs1, h.ll + bsL), true,
              RefMisses(h.ll, bsL, ll.sets, ll.assoc), bsL != [])
    else
      Outcome(Levels(h.l1 + bs1, h.ll), false, false, bs1 != [])
  }

  /** For a fetch within one line, the general access is one block lookup per level. */
  lemma {:induction false} NoXAccess(h: Levels, l1: Geometry, ll: Geometry, a: nat, size: nat)
    requires l1.Usable() && ll.Usable() && IsIrNoX(a, size, l1.lineSize, ll.lineSize)
    ensures var b := a / l1.lineSize;
            Access(h, l1, ll, a, size) ==
            if BlockMisses(h.l1, b, l1.sets, l1.assoc) then
              Outcome(Levels(h.l1 + [b], h.ll + [b]), true, BlockMisses(h.ll, b, ll.sets, ll.assoc), true)
            else Outcome(Levels(h.l1 + [b], h.ll), false, false, true)
  {
    var b := a / l1.lineSize;
    assert Blocks(a, size, l1.lineSize) == [b] == Blocks(a, size, ll.lineSize);
    RefMissesTwo(h.l1, b, b, l1.sets, l1.assoc);
    RefMissesTwo(h.ll, b, b, ll.sets, ll.assoc);
  }

  /** The histories of all three caches, and their geometries. */
  datatype Caches = Caches(i1: seq<nat>, d1: seq<nat>, ll: seq<nat>)

  datatype Shape = Shape(i1: Geometry, d1: Geometry, ll: Geometry)
  {
    predicate Usable() { i1.Usable() && d1.Usable() && ll.Usable() }
  }

  /** An instruction fetch or a data access. */
  datatype Ref = Ref(data: bool, addr: nat, size: nat)

  /** What the first level it goes to and the last level make of an access. */
  function OutcomeOf(h: Caches, g: Shape, r: Ref): (o: Outcome)
    requires g.Usable()
  {
    if r.data then Access(Levels(h.d1, h.ll), g.d1, g.ll, r.addr, r.size)
    else Access(Levels(h.i1, h.ll), g.i1, g.ll, r.addr, r.size)
  }

  /** The histories after an access: the other first level's stays. */
  function After(h: Caches, g: Shape, r: Ref): (h': Caches)
    requires g.Usable()
  {
    var o := OutcomeOf(h, g, r).levels;
    if r.data then Caches(h.i1, o.l1, o.ll) else Caches(o.l1, h.d1, o.ll)
  }

  function GeometryOf(c: Cache): (g: Geometry)
  {
    Geometry(c.sets, c.assoc, c.lineSize)
  }

  class Simulator {
    const I1: Cache
    const D1: Cache
    const LL: Cache

    ghost predicate Valid()
      reads I1, I1.tags, D1, D1.tags, LL, LL.tags
    {
      I1.Valid() && D1.Valid() && LL.Valid() &&
      I1 != D1 && I1 != LL && D1 != LL &&
      I1.tags != D1.tags && I1.tags != LL.tags && D1.tags != LL.tags
    }

    /** Clear all three caches. */
    constructor (i1: Geometry, d1: Geometry, ll: Geometry)
      requires i1.Usable() && d1.Usable() && ll.Usable()
      requires i1.assoc > 0 && d1.assoc > 0 && ll.assoc > 0
      ensures Valid() && fresh(I1) && fresh(I1.tags) && fresh(D1) && fresh(D1.tags) && fresh(LL) && fresh(LL.tags)
      ensures GeometryOf(I1) == i1 && GeometryOf(D1) == d1 && GeometryOf(LL) == ll
      ensures I1.refs == D1.refs == LL.refs == []
    {
      I1 := new Cache(i1.sets, i1.assoc, i1.lineSize);
      D1 := new Cache(d1.sets, d1.assoc, d1.lineSize);
      LL := new Cache(ll.sets, ll.assoc, ll.lineSize);
    }

    ghost function LevelsOf(c: Cache): Levels
      reads c, LL
    {
      Levels(c.refs, LL.refs)
    }

    ghost function Histories(): Caches
      reads I1, D1, LL
    {
      Caches(I1.refs, D1.refs, LL.refs)
    }

    ghost function ShapeOf(): Shape
    {
      Shape(GeometryOf(I1), GeometryOf(D1), GeometryOf(LL))
    }

    /** An access to `c`, the instruction or the data cache, of `size` bytes at `a`.  The
        result is false where the simulator would give up. */
    method DorefGen(c: Cache, a: nat, size: nat, cc: CacheCC) returns (ok: bool)
      requires Valid() && (c == I1 || c == D1)
      modifies c, c.tags, LL, LL.tags, cc
      ensures Valid() && Histories() == After(old(Histories()), ShapeOf(), Ref(c == D1, a, size))
      ensures var o := Access(old(LevelsOf(c)), GeometryOf(c), GeometryOf(LL), a, size);
              ok == o.ok && LevelsOf(c) == o.levels &&
              cc.a == old(cc.a) &&
              cc.m1 == old(cc.m1) + (if o.missL1 then 1 else 0) &&
              cc.mL == old(cc.mL) + (if o.missLL then 1 else 0)
      ensures ok && 1 <= size && a + size <= WORD ==>
                AreLines(c.refs[|old(c.refs)|..], a, size, c.lineSize) &&
                (LL.refs == old(LL.refs) || AreLines(LL.refs[|old(LL.refs)|..], a, size, LL.lineSize))
    {
      hide AreLines, ReachesThird, Blocks, RefMisses;
      var r := c.RefIsMiss(a, size);
      if r == Miss {
        cc.m1 := cc.m1 + 1;
        var rL := LL.RefIsMiss(a, size);
        if rL == Miss {
          cc.mL := cc.mL + 1;
        }
        return rL != Panic;
      }
      return r != Panic;
    }

    /** The shortcut for instruction fetches recognised at instrumentation time does
        exactly what the general access would. */
    method DorefNoX(a: nat, size: nat, cc: CacheCC)
      requires Valid() && IsIrNoX(a, size, I1.lineSize, LL.lineSize)
      modifies I1, I1.tags, LL, LL.tags, cc
      ensures Valid()
      ensures var o := Access(old(LevelsOf(I1)), GeometryOf(I1), GeometryOf(LL), a, size);
              o.ok && LevelsOf(I1) == o.levels &&
              cc.a == old(cc.a) &&
              cc.m1 == old(cc.m1) + (if o.missL1 then 1 else 0) &&
              cc.mL == old(cc.mL) + (if o.missLL then 1 else 0)
    {
      hide Access, IsIrNoX, BlockMisses;
      var block := a / I1.lineSize;
      NoXAccess(LevelsOf(I1), GeometryOf(I1), GeometryOf(LL), a, size);
      var miss := I1.BlockRef(block);
      if miss {
        cc.m1 := cc.m1 + 1;
        var missL := LL.BlockRef(block);
        if missL {
          cc.mL := cc.mL + 1;
        }
      }
    }
  }

  // ------------------------------------------------- whole runs

  /** The histories after a run from cleared caches. */
  function HistoriesAfter(g: Shape, run: seq<Ref>): (h: Caches)
    requires g.Usable()
  {
    if run == [] then Caches([], [], [])
    else After(HistoriesAfter(g, run[..|run|-1]), g, run[|run|-1])
  }

  function First(g: Shape, data: bool): (l1: Geometry)
  {
    if data then g.d1 else g.i1
  }

  /** The lines of all accesses of one kind, in order. */
  function LinesOf(run: seq<Ref>, data: bool, lineSize: nat): (bs: seq<nat>)
    requires lineSize > 0
  {
    if run == [] then []
    else
      var rest, r := LinesOf(run[..|run|-1], data, lineSize), run[|run|-1];
      if r.data == data then rest + Blocks(r.addr, r.size, lineSize) else rest
  }

  /** Does access `r` miss in the first level it goes to, after the accesses of its kind in
      `run`? */
  predicate MissesFirst(g: Shape, run: seq<Ref>, r: Ref)
    requires g.Usable()
  {
    var l1 := First(g, r.data);
    RefMisses(LinesOf(run, r.data, l1.lineSize), Blocks(r.addr, r.size, l1.lineSize), l1.sets, l1.assoc)
  }

  /** The last-level lines of the accesses that missed in their first level. */
  function LastLevelLines(g: Shape, run: seq<Ref>): (bs: seq<nat>)
    requires g.Usable()
  {
    if run == [] then []
    else
      var before, r := run[..|run|-1], run[|run|-1];
      var rest := LastLevelLines(g, before);
      if MissesFirst(g, before, r) then rest + Blocks(r.addr, r.size, g.ll.lineSize) else rest
  }

  predicate MissesLast(g: Shape, run: seq<Ref>, r: Ref)
    requires g.Usable()
  {
    MissesFirst(g, run, r) &&
    RefMisses(LastLevelLines(g, run), Blocks(r.addr, r.size, g.ll.lineSize), g.ll.sets, g.ll.assoc)
  }

  /** After every run each first level has looked up the lines of the accesses of its kind, and
      the last level the lines of those that missed there, in order. */
  lemma {:induction false} HistoriesAre(g: Shape, run: seq<Ref>)
    requires g.Usable()
    ensures var h := HistoriesAfter(g, run);
            h.i1 == LinesOf(run, false, g.i1.lineSize) && h.d1 == LinesOf(run, true, g.d1.lineSize) &&
            h.ll == LastLevelLines(g, run)
  {
    hide RefMisses, Blocks;
    if run != [] {
      var before, r := run[..|run|-1], run[|run|-1];
      HistoriesAre(g, before);
    }
  }

  /** So an access misses exactly as the accesses before it say. */
  lemma {:induction false} MissesAre(g: Shape, run: seq<Ref>, r: Ref)
    requires g.Usable()
    ensures var o := OutcomeOf(HistoriesAfter(g, run), g, r);
            o.missL1 == MissesFirst(g, run, r) && o.missLL == MissesLast(g, run, r)
  {
    hide RefMisses, Blocks;
    HistoriesAre(g, run);
  }

  /** Last-level misses of a run of fetches and data accesses, interleaved in any way. */
  function LastLevelMisses(h: Caches, g: Shape, run: seq<Ref>): (m: nat)
    requires g.Usable()
    decreases |run|
  {
    if run == [] then 0
    else (if OutcomeOf(h, g, run[0]).missLL then 1 else 0) + LastLevelMisses(After(h, g, run[0]), g, run[1..])
  }

  /** One access: with more last-level ways it misses there only if it did before, and what
      reaches each level is the same. */
  lemma {:induction false} MoreWaysOneAccess(h: Caches, g: Shape, ways: nat, r: Ref)
    requires g.Usable() && g.ll.assoc <= ways
    ensures var g' := g.(ll := g.ll.(assoc := ways));
            After(h, g', r) == After(h, g, r) &&
            (OutcomeOf(h, g', r).missLL ==> OutcomeOf(h, g, r).missLL)
  {
    RefMissesMonotone(h.ll, Blocks(r.addr, r.size, g.ll.lineSize), g.ll.sets, g.ll.assoc, ways);
  }

  /** Giving the last level more ways never costs a miss, over any interleaving of fetches and
      data accesses, straddling ones included, and from any common history. */
  lemma {:induction false} MoreLastLevelWays(h: Caches, g: Shape, ways: nat, run: seq<Ref>)
    requires g.Usable() && g.ll.assoc <= ways
    ensures LastLevelMisses(h, g.(ll := g.ll.(assoc := ways)), run) <= LastLevelMisses(h, g, run)
    decreases |run|
  {
    if run != [] {
      MoreWaysOneAccess(h, g, ways, run[0]);
      MoreLastLevelWays(After(h, g, run[0]), g, ways, run[1..]);
    }
  }
}
