/** The mutable state of the instrumentation pass: a fixed array of queued events, the
    block's table of instruction records and the block being built. */
module InstrumentState {
  import opened Arith
  import opened Options
  import opened Instrument
  import opened InstrumentMeaning
  import opened InstrumentPass
  import Hierarchy

  const N_EVENTS: nat := 16

  function Marks(stmts: seq<Stmt>): (n: nat)
  {
    if stmts == [] then 0
    else Marks(stmts[..|stmts|-1]) + if stmts[|stmts|-1].IMark? then 1 else 0
  }

  lemma {:induction false} MarksPrefix(stmts: seq<Stmt>, i: nat)
    requires i < |stmts|
    ensures Marks(stmts[..i+1]) == Marks(stmts[..i]) + (if stmts[i].IMark? then 1 else 0)
    ensures Marks(stmts[..i+1]) <= Marks(stmts)
    decreases |stmts| - i
  {
    assert stmts[..i+1][..i] == stmts[..i];
    if i + 1 == |stmts| {
      assert stmts[..i+1] == stmts;
    } else {
      MarksPrefix(stmts, i + 1);
    }
  }

  lemma {:induction false} NoMarks(stmts: seq<Stmt>)
    requires forall j :: 0 <= j < |stmts| ==> !stmts[j].IMark?
    ensures Marks(stmts) == 0
  {
    if stmts != [] { NoMarks(stmts[..|stmts|-1]); }
  }

  /** The sizes the pass asserts: no access is longer than the shortest line. */
  predicate SizeOk(cfg: Config, st: Stmt)
  {
    cfg.cacheSim ==>
      1 <= cfg.minLine &&
      (st.Load? || st.Store? || st.StoreG? || st.LoadG? || st.LoadLinked? || st.StoreCond? ==>
         1 <= st.size <= cfg.minLine) &&
      (st.Dirty? || st.Cas? ==> 1 <= st.size)
  }

  // ------------------------------------------------------------------ what one operation keeps

  lemma {:induction false} AppendKeepsQueue(cfg: Config, q: seq<Event>, e: Event, cur: Inode)
    requires QueueOk(cfg, q) && e.n == cur
    requires e.Data() ==> cfg.cacheSim && EndsWith(q, cur)
    ensures QueueOk(cfg, q + [e]) && EndsWith(q + [e], cur)
  {
    var r := q + [e];
    forall j | 0 < j < |r| && r[j-1].Ir() && r[j].Data() ensures r[j].n == r[j-1].n {
      assert r[j-1] == q[j-1] && (j < |q| ==> r[j] == q[j]);
    }
  }

  lemma {:induction false} MergeKeepsQueue(cfg: Config, q: seq<Event>, cur: Inode, ea: Atom, sz: nat)
    requires QueueOk(cfg, q) && q != [] && q[|q|-1] == Dr(cur, ea, sz)
    ensures QueueOk(cfg, q[|q|-1 := Dm(cur, ea, sz)])
  {
    var r := q[|q|-1 := Dm(cur, ea, sz)];
    forall j | 0 < j < |r| && r[j-1].Ir() && r[j].Data() ensures r[j].n == r[j-1].n {
      assert r[j-1] == q[j-1] && q[j].Data() && q[j].n == r[j].n;
    }
  }

  lemma {:induction false} EnqueueKeepsQueue(cfg: Config, cap: nat, q: seq<Event>, e: Event, cur: Inode, tmp: nat)
    requires 1 <= cap && |q| <= cap && QueueOk(cfg, q) && e.n == cur
    requires e.Data() ==> cfg.cacheSim && EndsWith(q, cur)
    ensures var r := Enqueue(cfg, cap, q, e, tmp).q; |r| <= cap && QueueOk(cfg, r) && EndsWith(r, cur)
  {
    AppendKeepsQueue(cfg, q, e, cur);
  }

  lemma {:induction false} OpKeepsQueue(cfg: Config, cap: nat, op: Op, cur: Inode, q: seq<Event>, tmp: nat)
    requires cfg.i1Line > 0 && 1 <= cap && |q| <= cap && QueueOk(cfg, q) && Ready(op, q, cur)
    ensures var r := DoOp(cfg, cap, op, cur, q, tmp).q; |r| <= cap && QueueOk(cfg, r) && EndsWith(r, cur)
  {
    match op
    case OpIr(n) =>
      var e := if Hierarchy.IsIrNoX(n.addr, n.len, cfg.i1Line, cfg.llLine) then IrNoX(n) else IrGen(n);
      EnqueueKeepsQueue(cfg, cap, q, e, cur, tmp);
    case OpRead(ea, sz) =>
      if cfg.cacheSim { EnqueueKeepsQueue(cfg, cap, q, Dr(cur, ea, sz), cur, tmp); }
    case OpWrite(ea, sz) =>
      if cfg.cacheSim {
        if q != [] && q[|q|-1] == Dr(cur, ea, sz) {
          MergeKeepsQueue(cfg, q, cur, ea, sz);
          assert q[..|q|-1] + [Dm(cur, ea, sz)] == q[|q|-1 := Dm(cur, ea, sz)];
        } else {
          EnqueueKeepsQueue(cfg, cap, q, Dw(cur, ea, sz), cur, tmp);
        }
      }
    case OpIndirect(a) =>
      if cfg.branchSim { EnqueueKeepsQueue(cfg, cap, q, Bi(cur, a), cur, tmp); }
    case _ =>
  }

  /** The queue after the first `m` of some operations. */
  function QueueAfter(cfg: Config, cap: nat, ops: seq<Op>, m: nat, cur: Inode, q: seq<Event>, tmp: nat): (r: seq<Event>)
    requires cfg.i1Line > 0 && m <= |ops|
  {
    DoOps(cfg, cap, ops[..m], cur, q, tmp).q
  }

  lemma {:induction false} OpsKeepQueue(cfg: Config, cap: nat, ops: seq<Op>, m: nat, cur: Inode, q: seq<Event>, tmp: nat)
    requires cfg.i1Line > 0 && 1 <= cap && |q| <= cap && QueueOk(cfg, q) && OpsReady(ops, q, cur) && m <= |ops|
    ensures var r := QueueAfter(cfg, cap, ops, m, cur, q, tmp);
            |r| <= cap && QueueOk(cfg, r) && (m == |ops| ==> EndsWith(r, cur))
    decreases |ops|
  {
    if m > 0 {
      OpKeepsQueue(cfg, cap, ops[0], cur, q, tmp);
      var first := DoOp(cfg, cap, ops[0], cur, q, tmp);
      assert ops[..m][1..] == ops[1..][..m-1];
      OpsKeepQueue(cfg, cap, ops[1..], m - 1, cur, first.q, first.tmp);
    }
  }

  /** Where the pass stands before statement `i`. */
  function PassAt(cfg: Config, cap: nat, blk: Block, i: nat): (p: Pass)
    requires cfg.i1Line > 0 && i <= |blk.stmts|
    ensures p.i == i
  {
    if i == 0 then Start(blk)
    else
      var p := PassAt(cfg, cap, blk, i - 1);
      After(cfg, blk, p, StmtStep(cfg, cap, blk, p))
  }

  lemma {:induction false} OpsReadyAt(cfg: Config, st: Stmt, q: seq<Event>, cur: Inode, slot: nat)
    requires EndsWith(q, cur)
    ensures var n := NextInode(cfg, st, cur, slot); OpsReady(Ops(cfg, st, n), q, n)
  {
  }

  /** What one statement keeps. */
  lemma {:induction false} StmtKeepsQueue(cfg: Config, cap: nat, blk: Block, p: Pass)
    requires cfg.i1Line > 0 && 1 <= cap && p.i < |blk.stmts|
    requires |p.q| <= cap && QueueOk(cfg, p.q) && EndsWith(p.q, p.cur) && (p.i < FirstMark(blk.stmts) ==> p.q == [])
    ensures var r := StmtStep(cfg, cap, blk, p).q;
            |r| <= cap && QueueOk(cfg, r) && EndsWith(r, NextInode(cfg, blk.stmts[p.i], p.cur, p.slot)) &&
            (p.i < FirstMark(blk.stmts) ==> r == [])
  {
    if FirstMark(blk.stmts) <= p.i {
      var cur := NextInode(cfg, blk.stmts[p.i], p.cur, p.slot);
      var ops := Ops(cfg, blk.stmts[p.i], cur);
      OpsReadyAt(cfg, blk.stmts[p.i], p.q, p.cur, p.slot);
      OpsKeepQueue(cfg, cap, ops, |ops|, cur, p.q, p.tmp);
      assert ops[..|ops|] == ops;
    }
  }

  lemma {:induction false} PassKeepsQueue(cfg: Config, cap: nat, blk: Block, i: nat)
    requires cfg.i1Line > 0 && 1 <= cap && i <= |blk.stmts|
    ensures var p := PassAt(cfg, cap, blk, i);
            |p.q| <= cap && QueueOk(cfg, p.q) && EndsWith(p.q, p.cur) && (i <= FirstMark(blk.stmts) ==> p.q == [])
  {
    if i > 0 {
      PassKeepsQueue(cfg, cap, blk, i - 1);
      StmtKeepsQueue(cfg, cap, blk, PassAt(cfg, cap, blk, i - 1));
    }
  }

  lemma {:induction false} OpsAtReady(cfg: Config, cap: nat, blk: Block, i: nat)
    requires cfg.i1Line > 0 && i <= |blk.stmts|
    requires var p := PassAt(cfg, cap, blk, i); EndsWith(p.q, p.cur)
    ensures OpsReady(OpsAt(cfg, cap, blk, i), PassAt(cfg, cap, blk, i).q, CurAt(cfg, cap, blk, i))
  {
    hide PassAt, EndsWith;
    var p := PassAt(cfg, cap, blk, i);
    if i < |blk.stmts| { OpsReadyAt(cfg, blk.stmts[i], p.q, p.cur, p.slot); }
  }

  /** For every block and capacity: whenever the pass comes to an operation (the `m`-th of
      statement `i`, or of the end of the block), the queue is within the capacity and a data
      event right behind a fetch in it belongs to the same instruction.  This is what the
      pass asserts when it fuses the two. */
  lemma {:induction false} FetchOwnsData(cfg: Config, cap: nat, blk: Block, i: nat, m: nat, j: nat)
    requires cfg.i1Line > 0 && 1 <= cap && FirstMark(blk.stmts) <= i <= |blk.stmts|
    requires m <= |OpsAt(cfg, cap, blk, i)|
    ensures var p := PassAt(cfg, cap, blk, i);
            var q := QueueAfter(cfg, cap, OpsAt(cfg, cap, blk, i), m, CurAt(cfg, cap, blk, i), p.q, p.tmp);
            |q| <= cap && (0 < j < |q| && q[j-1].Ir() && q[j].Data() ==> q[j].n == q[j-1].n)
  {
    hide PassAt, OpsAt, CurAt, QueueAfter, EndsWith, OpsReady;
    PassKeepsQueue(cfg, cap, blk, i);
    var p := PassAt(cfg, cap, blk, i);
    OpsAtReady(cfg, cap, blk, i);
    OpsKeepQueue(cfg, cap, OpsAt(cfg, cap, blk, i), m, CurAt(cfg, cap, blk, i), p.q, p.tmp);
  }

  function CurAt(cfg: Config, cap: nat, blk: Block, i: nat): (n: Inode)
    requires cfg.i1Line > 0 && i <= |blk.stmts|
  {
    var p := PassAt(cfg, cap, blk, i);
    if i < |blk.stmts| then NextInode(cfg, blk.stmts[i], p.cur, p.slot) else p.cur
  }

  function OpsAt(cfg: Config, cap: nat, blk: Block, i: nat): (ops: seq<Op>)
    requires cfg.i1Line > 0 && i <= |blk.stmts|
  {
    if i < |blk.stmts| then Ops(cfg, blk.stmts[i], CurAt(cfg, cap, blk, i)) else EndOps(blk)
  }

  lemma {:induction false} DoOpsOne(cfg: Config, cap: nat, op: Op, cur: Inode, q: seq<Event>, tmp: nat)
    requires cfg.i1Line > 0
    ensures DoOps(cfg, cap, [op], cur, q, tmp) == DoOp(cfg, cap, op, cur, q, tmp)
  {
    assert [op][1..] == [];
    var s := DoOp(cfg, cap, op, cur, q, tmp);
    assert DoOps(cfg, cap, [op][1..], cur, s.q, s.tmp) == Step([], s.q, s.tmp);
    assert s.emit + [] == s.emit;
  }

  lemma {:induction false} DoOpsTwo(cfg: Config, cap: nat, op1: Op, op2: Op, cur: Inode, q: seq<Event>, tmp: nat)
    requires cfg.i1Line > 0
    ensures var s1 := DoOp(cfg, cap, op1, cur, q, tmp);
            var s2 := DoOp(cfg, cap, op2, cur, s1.q, s1.tmp);
            DoOps(cfg, cap, [op1, op2], cur, q, tmp) == Step(s1.emit + s2.emit, s2.q, s2.tmp)
  {
    var s1 := DoOp(cfg, cap, op1, cur, q, tmp);
    assert [op1, op2][1..] == [op2];
    DoOpsOne(cfg, cap, op2, cur, s1.q, s1.tmp);
  }

  lemma {:induction false} FlushStep(cfg: Config, q: seq<Event>, i: nat, h: Helper, n: nat, out: seq<Out>)
    requires i < |q| && Choice(h, n) == Choose(cfg, q[i..])
    ensures i + n <= |q| && out + FlushOut(cfg, q[i..]) == (out + [Call(h, None)]) + FlushOut(cfg, q[i+n..])
  {
    assert q[i..][n..] == q[i+n..];
    Assoc(out, [Call(h, None)], FlushOut(cfg, q[i+n..]));
  }

  // ------------------------------------------------------------------ the state

  class CgState {
    const cfg: Config
    const events: array<Event>
    var used: nat
    const instrs: array<Inode>
    var slot: nat
    var out: seq<Out>
    var tmp: nat

    ghost predicate Valid()
      reads this, events
    {
      cfg.i1Line > 0 && 1 <= events.Length && used <= events.Length && slot <= instrs.Length &&
      QueueOk(cfg, events[..used])
    }

    ghost function Q(): seq<Event>
      requires used <= events.Length
      reads this, events
    {
      events[..used]
    }

    /** The state is what step `s` leaves, output having been `out0` before it. */
    ghost predicate Is(out0: seq<Out>, s: Step)
      reads this, events
    {
      Valid() && out == out0 + s.emit && Q() == s.q && tmp == s.tmp
    }

    constructor (cfg: Config, capacity: nat, nInstrs: nat, tmps: nat)
      requires cfg.i1Line > 0 && 1 <= capacity
      ensures Valid() && Q() == [] && out == [] && slot == 0 && tmp == tmps
      ensures this.cfg == cfg && events.Length == capacity && instrs.Length == nInstrs
      ensures fresh(events) && fresh(instrs)
    {
      this.cfg := cfg;
      events := new Event[capacity](_ => IrGen(NO_INODE));
      instrs := new Inode[nInstrs](_ => NO_INODE);
      used, slot, out, tmp := 0, 0, [], tmps;
    }

    /** Decide on the helper to call for the event at `i` and how many events it covers. */
    method ChooseHelper(i: nat) returns (h: Helper, n: nat)
      requires Valid() && i < used
      ensures Choice(h, n) == Choose(cfg, Q()[i..])
    {
      ghost var q := Q()[i..];
      var more, more2 := i + 1 < used, i + 2 < used;
      assert more ==> q[1] == events[i+1];
      assert more2 ==> q[2] == events[i+2];
      match events[i] {
        case IrNoX(inode) =>
          if more && (events[i+1].Dr? || events[i+1].Dm?) {
            assert events[i+1].n == inode;
            return Log1IrNoX1Dr(inode, events[i+1].ea, events[i+1].sz), 2;
          } else if more && events[i+1].Dw? {
            assert events[i+1].n == inode;
            return Log1IrNoX1Dw(inode, events[i+1].ea, events[i+1].sz), 2;
          } else if more2 && events[i+1].IrNoX? && events[i+2].IrNoX? {
            var n2, n3 := events[i+1].n, events[i+2].n;
            return if cfg.cacheSim then Log3IrNoX0D(inode, n2, n3) else Log3Ir(inode, n2, n3), 3;
          } else if more && events[i+1].IrNoX? {
            var n2 := events[i+1].n;
            return if cfg.cacheSim then Log2IrNoX0D(inode, n2) else Log2Ir(inode, n2), 2;
          } else {
            return if cfg.cacheSim then Log1IrNoX0D(inode) else Log1Ir(inode), 1;
          }
        case IrGen(inode) => return if cfg.cacheSim then Log1IrGen0D(inode) else Log1Ir(inode), 1;
        case Dr(inode, ea, sz) => return Log0Ir1Dr(inode, ea, sz), 1;
        case Dm(inode, ea, sz) => return Log0Ir1Dr(inode, ea, sz), 1;
        case Dw(inode, ea, sz) => return Log0Ir1Dw(inode, ea, sz), 1;
        case Bc(inode, taken) => return LogCondBranch(inode, taken), 1;
        case Bi(inode, dst) => return LogIndBranch(inode, dst), 1;
      }
    }

    /** Emit the call for the event at `i`; the next one not covered by it follows. */
    method FlushNext(i: nat, ghost q: seq<Event>) returns (next: nat)
      requires Valid() && i < used && q == Q()
      modifies this`out
      ensures i < next <= used && out + FlushOut(cfg, q[next..]) == old(out) + FlushOut(cfg, q[i..])
    {
      var h, n := ChooseHelper(i);
      FlushStep(cfg, q, i, h, n, out);
      out := out + [Call(h, None)];
      next := i + n;
    }

    /** Emit calls for all queued events and empty the queue. */
    method FlushEvents()
      requires Valid()
      modifies this
      ensures Is(old(out), Step(FlushOut(cfg, old(Q())), [], old(tmp))) && slot == old(slot)
    {
      ghost var q := Q();
      var i := 0;
      while i < used
        invariant 0 <= i <= used == old(used) && slot == old(slot) && tmp == old(tmp)
        invariant out + FlushOut(cfg, q[i..]) == old(out) + FlushOut(cfg, q)
      {
        i := FlushNext(i, q);
      }
      used := 0;
    }

    /** Append an event, flushing first if there is no room. */
    method Append(e: Event)
      requires Valid() && (e.Data() ==> cfg.cacheSim && EndsWith(Q(), e.n))
      modifies this, events
      ensures Is(old(out), Enqueue(cfg, events.Length, old(Q()), e, old(tmp)))
      ensures slot == old(slot) && EndsWith(Q(), e.n)
    {
      if used == events.Length {
        FlushEvents();
      }
      AppendKeepsQueue(cfg, Q(), e, e.n);
      events[used] := e;
      used := used + 1;
      assert Q() == old(Q()) + [e] || Q() == [e];
    }

    method AddEventIr(inode: Inode)
      requires Valid()
      modifies this, events
      ensures Is(old(out), DoOp(cfg, events.Length, OpIr(inode), inode, old(Q()), old(tmp)))
      ensures slot == old(slot) && EndsWith(Q(), inode)
    {
      if Hierarchy.IsIrNoX(inode.addr, inode.len, cfg.i1Line, cfg.llLine) {
        Append(IrNoX(inode));
      } else {
        Append(IrGen(inode));
      }
    }

    method AddEventDr(inode: Inode, size: nat, ea: Atom)
      requires Valid() && EndsWith(Q(), inode) && (cfg.cacheSim ==> 1 <= size <= cfg.minLine)
      modifies this, events
      ensures Is(old(out), DoOp(cfg, events.Length, OpRead(ea, size), inode, old(Q()), old(tmp)))
      ensures slot == old(slot) && EndsWith(Q(), inode)
    {
      if !cfg.cacheSim {
        return;
      }
      Append(Dr(inode, ea, size));
    }

    method AddEventDw(inode: Inode, size: nat, ea: Atom)
      requires Valid() && EndsWith(Q(), inode) && (cfg.cacheSim ==> 1 <= size <= cfg.minLine)
      modifies this, events
      ensures Is(old(out), DoOp(cfg, events.Length, OpWrite(ea, size), inode, old(Q()), old(tmp)))
      ensures slot == old(slot) && EndsWith(Q(), inode)
    {
      if !cfg.cacheSim {
        return;
      }
      ghost var q := Q();
      if used > 0 {
        var last := events[used-1];
        if last.Dr? && last.sz == size && last.n == inode && last.ea == ea {
          MergeKeepsQueue(cfg, q, inode, ea, size);
          events[used-1] := Dm(inode, ea, size);
          assert Q() == q[|q|-1 := Dm(inode, ea, size)] == q[..|q|-1] + [Dm(inode, ea, size)];
          return;
        }
      }
      Append(Dw(inode, ea, size));
    }

    method AddEventDGuarded(inode: Inode, size: nat, ea: Atom, guard: Atom, isWrite: bool)
      requires Valid() && EndsWith(Q(), inode) && (cfg.cacheSim ==> 1 <= size <= cfg.minLine)
      modifies this, events
      ensures Is(old(out), DoOp(cfg, events.Length, OpGuarded(ea, size, guard, isWrite), inode, old(Q()), old(tmp)))
      ensures slot == old(slot) && EndsWith(Q(), inode)
    {
      if !cfg.cacheSim {
        return;
      }
      FlushEvents();
      var h := if isWrite then Log0Ir1Dw(inode, ea, size) else Log0Ir1Dr(inode, ea, size);
      Assoc(old(out), FlushOut(cfg, old(Q())), [Call(h, Some(guard))]);
      out := out + [Call(h, Some(guard))];
    }

    /** Widen the guard of an exit into fresh temporaries and post the branch event. */
    method AddBranch(inode: Inode, guard: Atom, inverted: bool)
      requires Valid() && EndsWith(Q(), inode)
      modifies this, events
      ensures Is(old(out), DoOp(cfg, events.Length, OpBranch(guard, inverted), inode, old(Q()), old(tmp)))
      ensures slot == old(slot) && EndsWith(Q(), inode)
    {
      var taken := RdTmp(tmp + 2);
      ghost var pre := WidenGuard(guard, inverted, tmp);
      out := out + [SetTmp(tmp, Copy(guard))];
      out := out + [SetTmp(tmp + 1, Widen(RdTmp(tmp)))];
      out := out + [SetTmp(tmp + 2, if inverted then XorOne(RdTmp(tmp + 1)) else Copy(RdTmp(tmp + 1)))];
      tmp := tmp + 3;
      assert out == old(out) + pre;
      if !cfg.branchSim {
        return;
      }
      Append(Bc(inode, taken));
      Assoc(old(out), pre, Enqueue(cfg, events.Length, old(Q()), Bc(inode, taken), old(tmp) + 3).emit);
    }

    method AddEventBi(inode: Inode, whereTo: Atom)
      requires Valid() && EndsWith(Q(), inode)
      modifies this, events
      ensures Is(old(out), DoOp(cfg, events.Length, OpIndirect(whereTo), inode, old(Q()), old(tmp)))
      ensures slot == old(slot)
    {
      if !cfg.branchSim {
        return;
      }
      Append(Bi(inode, whereTo));
    }

    /** Take the next slot of the block's table for a new instruction. */
    method SetupInstrInfo(addr: nat, len: nat) returns (inode: Inode)
      requires Valid() && slot < instrs.Length
      modifies this`slot, instrs
      ensures Valid() && inode == Inode(old(slot), addr, len) && slot == old(slot) + 1
    {
      inode := Inode(slot, addr, len);
      instrs[slot] := inode;
      slot := slot + 1;
    }

    /** Queue the events of one data-accessing or branching statement. */
    method AddStmt(st: Stmt, cur: Inode)
      requires Valid() && EndsWith(Q(), cur) && !st.IMark? && SizeOk(cfg, st)
      modifies this, events
      ensures Is(old(out), DoOps(cfg, events.Length, Ops(cfg, st, cur), cur, old(Q()), old(tmp)))
      ensures slot == old(slot) && EndsWith(Q(), cur)
    {
      hide DoOp, FlushOut, QueueOk, EndsWith;
      ghost var cap, q, t, before := events.Length, Q(), tmp, out;
      match st {
        case Plain(_) =>
        case Load(_, ea, size) =>
          DoOpsOne(cfg, cap, OpRead(ea, size), cur, q, t);
          AddEventDr(cur, size, ea);
        case Store(ea, size) =>
          DoOpsOne(cfg, cap, OpWrite(ea, size), cur, q, t);
          AddEventDw(cur, size, ea);
        case StoreG(ea, size, g) =>
          DoOpsOne(cfg, cap, OpGuarded(ea, size, g, true), cur, q, t);
          AddEventDGuarded(cur, size, ea, g, true);
        case LoadG(_, ea, size, g) =>
          DoOpsOne(cfg, cap, OpGuarded(ea, size, g, false), cur, q, t);
          AddEventDGuarded(cur, size, ea, g, false);
        case Dirty(_, fx, ea, size) =>
          AddAccesses(cur, Min(size, cfg.minLine), ea, fx != WriteFx, fx != ReadFx);
        case Cas(_, ea, size, double) =>
          AddAccesses(cur, Min(if double then 2 * size else size, cfg.minLine), ea, true, true);
        case LoadLinked(_, ea, size) =>
          AddLoadLinked(cur, size, ea);
        case StoreCond(_, ea, size) =>
          DoOpsOne(cfg, cap, OpWrite(ea, size), cur, q, t);
          AddEventDw(cur, size, ea);
        case Exit(g, kind, dst) =>
          AddExit(cur, g, kind, dst);
      }
    }

    /** A load-linked is followed by a flush, so that nothing is called before its store. */
    method AddLoadLinked(cur: Inode, size: nat, ea: Atom)
      requires Valid() && EndsWith(Q(), cur) && (cfg.cacheSim ==> 1 <= size <= cfg.minLine)
      modifies this, events
      ensures Is(old(out), DoOps(cfg, events.Length, [OpRead(ea, size), OpFlush], cur, old(Q()), old(tmp)))
      ensures slot == old(slot) && EndsWith(Q(), cur)
    {
      hide FlushOut, DoOps;
      ghost var cap, q, t := events.Length, Q(), tmp;
      DoOpsTwo(cfg, cap, OpRead(ea, size), OpFlush, cur, q, t);
      ghost var s1 := DoOp(cfg, cap, OpRead(ea, size), cur, q, t);
      AddEventDr(cur, size, ea);
      Assoc(old(out), s1.emit, FlushOut(cfg, Q()));
      FlushEvents();
    }

    /** A read, a write, or both, of the same place. */
    method AddAccesses(cur: Inode, size: nat, ea: Atom, reads_: bool, writes: bool)
      requires Valid() && EndsWith(Q(), cur) && (reads_ || writes)
      requires cfg.cacheSim ==> 1 <= size <= cfg.minLine
      modifies this, events
      ensures Is(old(out), DoOps(cfg, events.Length,
                                 (if reads_ then [OpRead(ea, size)] else []) + (if writes then [OpWrite(ea, size)] else []),
                                 cur, old(Q()), old(tmp)))
      ensures slot == old(slot) && EndsWith(Q(), cur)
    {
      ghost var cap, q, t := events.Length, Q(), tmp;
      if !writes {
        DoOpsOne(cfg, cap, OpRead(ea, size), cur, q, t);
        assert [OpRead(ea, size)] + [] == [OpRead(ea, size)];
        AddEventDr(cur, size, ea);
      } else if !reads_ {
        DoOpsOne(cfg, cap, OpWrite(ea, size), cur, q, t);
        assert [] + [OpWrite(ea, size)] == [OpWrite(ea, size)];
        AddEventDw(cur, size, ea);
      } else {
        assert [OpRead(ea, size)] + [OpWrite(ea, size)] == [OpRead(ea, size), OpWrite(ea, size)];
        AddReadWrite(cur, size, ea);
      }
    }

    /** A read and then a write of the same place. */
    method AddReadWrite(cur: Inode, size: nat, ea: Atom)
      requires Valid() && EndsWith(Q(), cur) && (cfg.cacheSim ==> 1 <= size <= cfg.minLine)
      modifies this, events
      ensures Is(old(out), DoOps(cfg, events.Length, [OpRead(ea, size), OpWrite(ea, size)], cur, old(Q()), old(tmp)))
      ensures slot == old(slot) && EndsWith(Q(), cur)
    {
      ghost var cap, q, t := events.Length, Q(), tmp;
      DoOpsTwo(cfg, cap, OpRead(ea, size), OpWrite(ea, size), cur, q, t);
      ghost var s1 := DoOp(cfg, cap, OpRead(ea, size), cur, q, t);
      AddEventDr(cur, size, ea);
      ghost var s2 := DoOp(cfg, cap, OpWrite(ea, size), cur, s1.q, s1.tmp);
      Assoc(old(out), s1.emit, s2.emit);
      AddEventDw(cur, size, ea);
    }

    /** A side exit: the branch predictor is consulted for branches of the guest code only,
        and everything queued must be flushed. */
    method AddExit(cur: Inode, g: Atom, kind: JumpKind, dst: nat)
      requires Valid() && EndsWith(Q(), cur)
      modifies this, events
      ensures Is(old(out), DoOps(cfg, events.Length, Ops(cfg, Exit(g, kind, dst), cur), cur, old(Q()), old(tmp)))
      ensures slot == old(slot) && EndsWith(Q(), cur)
    {
      ghost var cap, q, t := events.Length, Q(), tmp;
      if kind != OtherJump {
        var inverted := (cur.addr + cur.len) % WORD == dst;
        ExitOps(cfg, cap, g, kind, dst, cur, q, t);
        AddBranch(cur, g, inverted);
        Assoc(old(out), DoOp(cfg, cap, OpBranch(g, inverted), cur, q, t).emit, FlushOut(cfg, Q()));
        FlushEvents();
      } else {
        DoOpsOne(cfg, cap, OpFlush, cur, q, t);
        FlushEvents();
      }
    }

    /** Visit statement `i` of the block, the current record being `cur`. */
    method Visit(blk: Block, i: nat, cur: Inode) returns (cur': Inode)
      requires Valid() && FirstMark(blk.stmts) <= i < |blk.stmts| && EndsWith(Q(), cur)
      requires SizeOk(cfg, blk.stmts[i]) && (blk.stmts[i].IMark? ==> slot < instrs.Length)
      modifies this, events, instrs
      ensures var p := Pass(i, cur, old(slot), old(Q()), old(tmp));
              var s := StmtStep(cfg, events.Length, blk, p);
              Is(old(out), Step(s.emit + [Orig(i, blk.stmts[i])], s.q, s.tmp)) &&
              cur' == After(cfg, blk, p, s).cur && slot == After(cfg, blk, p, s).slot
      ensures EndsWith(Q(), cur')
    {
      hide FlushOut, QueueOk, DoOp, SizeOk;
      var st := blk.stmts[i];
      if st.IMark? {
        cur' := SetupInstrInfo(st.addr, if st.len == 0 then cfg.minInstr else st.len);
        DoOpsOne(cfg, events.Length, OpIr(cur'), cur', Q(), tmp);
        AddEventIr(cur');
      } else {
        cur' := cur;
        AddStmt(st, cur);
      }
      ghost var s := DoOps(cfg, events.Length, Ops(cfg, st, cur'), cur', old(Q()), old(tmp));
      Assoc(old(out), s.emit, [Orig(i, st)]);
      out := out + [Orig(i, st)];
    }

    /** The end of the block: an indirect branch, if any, and the last flush. */
    method Finish(blk: Block, cur: Inode)
      requires Valid() && EndsWith(Q(), cur)
      modifies this, events
      ensures out == old(out) + DoOps(cfg, events.Length, EndOps(blk), cur, old(Q()), old(tmp)).emit
      ensures slot == old(slot)
    {
      hide FlushOut, QueueOk, EndsWith;
      ghost var cap, q, t := events.Length, Q(), tmp;
      if (blk.kind == Boring || blk.kind == CallJump) && blk.next.RdTmp? {
        DoOpsTwo(cfg, cap, OpIndirect(blk.next), OpFlush, cur, q, t);
        assert EndOps(blk) == [OpIndirect(blk.next), OpFlush];
        AddEventBi(cur, blk.next);
        Assoc(old(out), DoOp(cfg, cap, OpIndirect(blk.next), cur, q, t).emit, FlushOut(cfg, Q()));
        FlushEvents();
      } else {
        DoOpsOne(cfg, cap, OpFlush, cur, q, t);
        FlushEvents();
      }
    }
  }

  lemma {:induction false} ExitOps(cfg: Config, cap: nat, g: Atom, kind: JumpKind, dst: nat, cur: Inode, q: seq<Event>, tmp: nat)
    requires cfg.i1Line > 0 && kind != OtherJump
    ensures var inverted := (cur.addr + cur.len) % WORD == dst;
            var s := DoOp(cfg, cap, OpBranch(g, inverted), cur, q, tmp);
            DoOps(cfg, cap, Ops(cfg, Exit(g, kind, dst), cur), cur, q, tmp)
            == Step(s.emit + FlushOut(cfg, s.q), [], s.tmp)
  {
    var inverted := (cur.addr + cur.len) % WORD == dst;
    DoOpsTwo(cfg, cap, OpBranch(g, inverted), OpFlush, cur, q, tmp);
    assert Ops(cfg, Exit(g, kind, dst), cur) == [OpBranch(g, inverted), OpFlush];
  }

  method CountMarks(stmts: seq<Stmt>) returns (n: nat)
    ensures n == Marks(stmts)
  {
    n := 0;
    for j := 0 to |stmts|
      invariant n == Marks(stmts[..j])
    {
      MarksPrefix(stmts, j);
      if stmts[j].IMark? {
        n := n + 1;
      }
    }
    assert stmts[..|stmts|] == stmts;
  }

  /** Where the traversal stands while copying the preamble. */
  function InPreamble(blk: Block, i: nat): (p: Pass)
  {
    Pass(i, NO_INODE, 0, [], blk.tmps)
  }

  lemma {:induction false} PreambleStep(cfg: Config, cap: nat, blk: Block, i: nat, out: seq<Out>)
    requires cfg.i1Line > 0 && i < FirstMark(blk.stmts)
    ensures out + Traverse(cfg, cap, blk, InPreamble(blk, i)) ==
            out + [Orig(i, blk.stmts[i])] + Traverse(cfg, cap, blk, InPreamble(blk, i + 1))
  {
    var p := InPreamble(blk, i);
    assert StmtStep(cfg, cap, blk, p) == Step([], [], blk.tmps);
    assert After(cfg, blk, p, Step([], [], blk.tmps)) == InPreamble(blk, i + 1);
    assert [] + [Orig(i, blk.stmts[i])] == [Orig(i, blk.stmts[i])];
    Assoc(out, [Orig(i, blk.stmts[i])], Traverse(cfg, cap, blk, InPreamble(blk, i + 1)));
  }

  /** Copy what precedes the first instruction mark. */
  method CopyPreamble(cfg: Config, ghost cap: nat, blk: Block) returns (i: nat, out: seq<Out>)
    requires cfg.i1Line > 0
    ensures i == FirstMark(blk.stmts)
    ensures out + Traverse(cfg, cap, blk, InPreamble(blk, i)) == Traverse(cfg, cap, blk, Start(blk))
  {
    i, out := 0, [];
    while i < |blk.stmts| && !blk.stmts[i].IMark?
      invariant 0 <= i <= FirstMark(blk.stmts)
      invariant out + Traverse(cfg, cap, blk, InPreamble(blk, i)) == Traverse(cfg, cap, blk, Start(blk))
    {
      PreambleStep(cfg, cap, blk, i, out);
      out := out + [Orig(i, blk.stmts[i])];
      i := i + 1;
    }
  }

  /** The pass over a whole block. */
  method InstrumentBlock(cfg: Config, blk: Block) returns (sbOut: seq<Out>)
    requires cfg.i1Line > 0 && FirstMark(blk.stmts) < |blk.stmts|
    requires forall j :: 0 <= j < |blk.stmts| ==> SizeOk(cfg, blk.stmts[j])
    ensures sbOut == Traverse(cfg, N_EVENTS, blk, Start(blk))
    ensures forall env: Env, val: Values | WellFormed(blk, 0, env.Keys) && Below(env, blk.tmps) ::
              RunOut(sbOut, env, val) == Meaning(cfg, blk, 0, env, val)
  {
    var i, preamble := CopyPreamble(cfg, N_EVENTS, blk);
    var nInstrs := CountMarks(blk.stmts);
    var cgs := new CgState(cfg, N_EVENTS, nInstrs, blk.tmps);
    cgs.out := preamble;
    NoMarks(blk.stmts[..i]);
    VisitAll(cgs, blk, i, Traverse(cfg, N_EVENTS, blk, Start(blk)));
    sbOut := cgs.out;
    BlockMeans(cfg, blk);
  }

  lemma {:induction false} BlockMeans(cfg: Config, blk: Block)
    requires cfg.i1Line > 0
    ensures forall env: Env, val: Values | WellFormed(blk, 0, env.Keys) && Below(env, blk.tmps) ::
              RunOut(Traverse(cfg, N_EVENTS, blk, Start(blk)), env, val) == Meaning(cfg, blk, 0, env, val)
  {
    hide RunOut, Traverse, Meaning, WellFormed, Below;
    forall env: Env, val: Values | WellFormed(blk, 0, env.Keys) && Below(env, blk.tmps)
      ensures RunOut(Traverse(cfg, N_EVENTS, blk, Start(blk)), env, val) == Meaning(cfg, blk, 0, env, val)
    {
      InstrumentedRunsAlike(cfg, N_EVENTS, blk, env, val);
    }
  }

  /** From the first instruction mark to the end. */
  method VisitAll(cgs: CgState, blk: Block, first: nat, ghost whole: seq<Out>)
    requires cgs.Valid() && cgs.Q() == [] && first == FirstMark(blk.stmts) < |blk.stmts|
    requires cgs.slot == 0 == Marks(blk.stmts[..first]) && cgs.instrs.Length == Marks(blk.stmts)
    requires forall j :: 0 <= j < |blk.stmts| ==> SizeOk(cgs.cfg, blk.stmts[j])
    requires cgs.out + Traverse(cgs.cfg, cgs.events.Length, blk, Pass(first, NO_INODE, 0, [], cgs.tmp)) == whole
    modifies cgs, cgs.events, cgs.instrs
    ensures cgs.out == whole && cgs.slot == cgs.instrs.Length
  {
    hide StmtStep, Marks, FirstMark, SizeOk;
    var cur, i := NO_INODE, first;
    ghost var cap := cgs.events.Length;
    while i < |blk.stmts|
      invariant first <= i <= |blk.stmts|
      invariant cgs.Valid() && EndsWith(cgs.Q(), cur) && cgs.slot == Marks(blk.stmts[..i])
      invariant cgs.out + Traverse(cgs.cfg, cap, blk, Pass(i, cur, cgs.slot, cgs.Q(), cgs.tmp)) == whole
    {
      ghost var p := Pass(i, cur, cgs.slot, cgs.Q(), cgs.tmp);
      ghost var s := StmtStep(cgs.cfg, cap, blk, p);
      ghost var rest := Traverse(cgs.cfg, cap, blk, After(cgs.cfg, blk, p, s));
      Assoc(cgs.out, s.emit + [Orig(i, blk.stmts[i])], rest);
      MarksPrefix(blk.stmts, i);
      cur := cgs.Visit(blk, i, cur);
      i := i + 1;
    }
    cgs.Finish(blk, cur);
    assert blk.stmts[..i] == blk.stmts;
  }
}
