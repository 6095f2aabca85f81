/** The queue, the flushing of it and the traversal of Cachegrind's instrumentation pass, as
    functions.  Adjacent events may share one call, and a write right after a read of the same
    place is turned into a modify; for every run of a block, leaving it at any exit, the calls
    perform exactly the actions of the executed statements' events. */
module InstrumentPass {
  import opened Options
  import opened Instrument
  import opened InstrumentMeaning
  import Hierarchy

  // ------------------------------------------------------------------ flushing

  datatype Choice = Choice(h: Helper, used: nat)

  /** Helper for the front of the queue, and how many events it covers. */
  function Choose(cfg: Config, q: seq<Event>): (c: Choice)
    requires q != []
    ensures 1 <= c.used <= |q|
  {
    match q[0]
    case IrNoX(n) =>
      if |q| > 1 && (q[1].Dr? || q[1].Dm?) then Choice(Log1IrNoX1Dr(n, q[1].ea, q[1].sz), 2)
      else if |q| > 1 && q[1].Dw? then Choice(Log1IrNoX1Dw(n, q[1].ea, q[1].sz), 2)
      else if |q| > 2 && q[1].IrNoX? && q[2].IrNoX? then
        Choice(if cfg.cacheSim then Log3IrNoX0D(n, q[1].n, q[2].n) else Log3Ir(n, q[1].n, q[2].n), 3)
      else if |q| > 1 && q[1].IrNoX? then
        Choice(if cfg.cacheSim then Log2IrNoX0D(n, q[1].n) else Log2Ir(n, q[1].n), 2)
      else Choice(if cfg.cacheSim then Log1IrNoX0D(n) else Log1Ir(n), 1)
    case IrGen(n) => Choice(if cfg.cacheSim then Log1IrGen0D(n) else Log1Ir(n), 1)
    case Dr(n, ea, sz) => Choice(Log0Ir1Dr(n, ea, sz), 1)
    case Dm(n, ea, sz) => Choice(Log0Ir1Dr(n, ea, sz), 1)
    case Dw(n, ea, sz) => Choice(Log0Ir1Dw(n, ea, sz), 1)
    case Bc(n, a) => Choice(LogCondBranch(n, a), 1)
    case Bi(n, a) => Choice(LogIndBranch(n, a), 1)
  }

  function FlushOut(cfg: Config, q: seq<Event>): (out: seq<Out>)
    decreases |q|
  {
    if q == [] then []
    else
      var c := Choose(cfg, q);
      [Call(c.h, None)] + FlushOut(cfg, q[c.used..])
  }

  // ------------------------------------------------------------------ one operation

  datatype Step = Step(emit: seq<Out>, q: seq<Event>, tmp: nat)

  /** Append an event, flushing first if the queue is full. */
  function Enqueue(cfg: Config, cap: nat, q: seq<Event>, e: Event, tmp: nat): (s: Step)
  {
    if |q| == cap then Step(FlushOut(cfg, q), [e], tmp) else Step([], q + [e], tmp)
  }

  /** The three statements computing, in temporary `tmp + 2`, whether the branch is taken. */
  function WidenGuard(g: Atom, inverted: bool, tmp: nat): (out: seq<Out>)
  {
    [SetTmp(tmp, Copy(g)),
     SetTmp(tmp + 1, Widen(RdTmp(tmp))),
     SetTmp(tmp + 2, if inverted then XorOne(RdTmp(tmp + 1)) else Copy(RdTmp(tmp + 1)))]
  }

  function DoOp(cfg: Config, cap: nat, op: Op, cur: Inode, q: seq<Event>, tmp: nat): (s: Step)
    requires cfg.i1Line > 0
  {
    match op
    case OpIr(n) =>
      Enqueue(cfg, cap, q, if Hierarchy.IsIrNoX(n.addr, n.len, cfg.i1Line, cfg.llLine) then IrNoX(n) else IrGen(n), tmp)
    case OpRead(ea, sz) =>
      if !cfg.cacheSim then Step([], q, tmp) else Enqueue(cfg, cap, q, Dr(cur, ea, sz), tmp)
    case OpWrite(ea, sz) =>
      if !cfg.cacheSim then Step([], q, tmp)
      else if q != [] && q[|q|-1] == Dr(cur, ea, sz) then Step([], q[..|q|-1] + [Dm(cur, ea, sz)], tmp)
      else Enqueue(cfg, cap, q, Dw(cur, ea, sz), tmp)
    case OpGuarded(ea, sz, g, isWrite) =>
      if !cfg.cacheSim then Step([], q, tmp)
      else
        var h := if isWrite then Log0Ir1Dw(cur, ea, sz) else Log0Ir1Dr(cur, ea, sz);
        Step(FlushOut(cfg, q) + [Call(h, Some(g))], [], tmp)
    case OpBranch(g, inverted) =>
      var pre := WidenGuard(g, inverted, tmp);
      if !cfg.branchSim then Step(pre, q, tmp + 3)
      else
        var s := Enqueue(cfg, cap, q, Bc(cur, RdTmp(tmp + 2)), tmp + 3);
        Step(pre + s.emit, s.q, s.tmp)
    case OpIndirect(a) =>
      if !cfg.branchSim then Step([], q, tmp) else Enqueue(cfg, cap, q, Bi(cur, a), tmp)
    case OpFlush => Step(FlushOut(cfg, q), [], tmp)
  }

  function DoOps(cfg: Config, cap: nat, ops: seq<Op>, cur: Inode, q: seq<Event>, tmp: nat): (s: Step)
    requires cfg.i1Line > 0
    decreases |ops|
  {
    if ops == [] then Step([], q, tmp)
    else
      var first := DoOp(cfg, cap, ops[0], cur, q, tmp);
      var rest := DoOps(cfg, cap, ops[1..], cur, first.q, first.tmp);
      Step(first.emit + rest.emit, rest.q, rest.tmp)
  }

  // ------------------------------------------------------------------ the traversal

  /** Where the pass stands before statement `i`. */
  datatype Pass = Pass(i: nat, cur: Inode, slot: nat, q: seq<Event>, tmp: nat)

  function StmtStep(cfg: Config, cap: nat, blk: Block, p: Pass): (s: Step)
    requires cfg.i1Line > 0 && p.i < |blk.stmts|
  {
    var st := blk.stmts[p.i];
    var cur := NextInode(cfg, st, p.cur, p.slot);
    if FirstMark(blk.stmts) <= p.i then DoOps(cfg, cap, Ops(cfg, st, cur), cur, p.q, p.tmp)
    else Step([], p.q, p.tmp)
  }

  function After(cfg: Config, blk: Block, p: Pass, s: Step): (p': Pass)
    requires p.i < |blk.stmts|
  {
    var st := blk.stmts[p.i];
    Pass(p.i + 1, NextInode(cfg, st, p.cur, p.slot), if st.IMark? then p.slot + 1 else p.slot, s.q, s.tmp)
  }

  /** Everything emitted from position `p` to the end of the block. */
  function Traverse(cfg: Config, cap: nat, blk: Block, p: Pass): (out: seq<Out>)
    requires cfg.i1Line > 0 && p.i <= |blk.stmts|
    decreases |blk.stmts| - p.i
  {
    if p.i == |blk.stmts| then DoOps(cfg, cap, EndOps(blk), p.cur, p.q, p.tmp).emit
    else
      var s := StmtStep(cfg, cap, blk, p);
      s.emit + [Orig(p.i, blk.stmts[p.i])] + Traverse(cfg, cap, blk, After(cfg, blk, p, s))
  }

  const NO_INODE := Inode(0, 0, 0)

  function Start(blk: Block): (p: Pass)
  {
    Pass(0, NO_INODE, 0, [], blk.tmps)
  }

  // ------------------------------------------------------------------ emitted calls and their actions

  function EventActs(cfg: Config, e: Event, env: Env): (acts: seq<Action>)
  {
    match e
    case IrNoX(n) => [if cfg.cacheSim then FetchNoX(n) else Count(n)]
    case IrGen(n) => [if cfg.cacheSim then FetchGen(n) else Count(n)]
    case Dr(n, ea, sz) => [Read(n, Eval(ea, env), sz)]
    case Dm(n, ea, sz) => [Read(n, Eval(ea, env), sz)]
    case Dw(n, ea, sz) => [Write(n, Eval(ea, env), sz)]
    case Bc(n, a) => [Cond(n, Eval(a, env))]
    case Bi(n, a) => [Ind(n, Eval(a, env))]
  }

  function Pending(cfg: Config, q: seq<Event>, env: Env): (acts: seq<Action>)
  {
    if q == [] then [] else EventActs(cfg, q[0], env) + Pending(cfg, q[1..], env)
  }

  lemma {:induction false} Assoc<T>(a: seq<T>, b: seq<T>, c: seq<T>)
    ensures a + (b + c) == a + b + c
  {
  }

  lemma {:induction false} PendingConcat(cfg: Config, p: seq<Event>, q: seq<Event>, env: Env)
    ensures Pending(cfg, p + q, env) == Pending(cfg, p, env) + Pending(cfg, q, env)
  {
    if p == [] {
      assert p + q == q;
    } else {
      PendingConcat(cfg, p[1..], q, env);
      assert (p + q)[0] == p[0] && (p + q)[1..] == p[1..] + q;
      Assoc(EventActs(cfg, p[0], env), Pending(cfg, p[1..], env), Pending(cfg, q, env));
    }
  }

  lemma {:induction false} PendingOne(cfg: Config, e: Event, env: Env)
    ensures Pending(cfg, [e], env) == EventActs(cfg, e, env)
  {
    assert [e][1..] == [];
  }

  /** Data events are queued only while simulating caches, and a data event right behind
      an instruction's fetch belongs to that instruction. */
  ghost predicate QueueOk(cfg: Config, q: seq<Event>)
  {
    (forall j :: 0 <= j < |q| && q[j].Data() ==> cfg.cacheSim) &&
    (forall j :: 0 < j < |q| && q[j-1].Ir() && q[j].Data() ==> q[j].n == q[j-1].n)
  }

  /** A fetch at the end of the queue is the current instruction's. */
  predicate EndsWith(q: seq<Event>, cur: Inode)
  {
    q != [] && q[|q|-1].Ir() ==> q[|q|-1].n == cur
  }

  lemma {:induction false} QueueOkSuffix(cfg: Config, q: seq<Event>, k: nat)
    requires QueueOk(cfg, q) && k <= |q|
    ensures QueueOk(cfg, q[k..])
  {
    var r := q[k..];
    forall j | 0 < j < |r| && r[j-1].Ir() && r[j].Data() ensures r[j].n == r[j-1].n {
      assert r[j] == q[k+j] && r[j-1] == q[k+j-1];
    }
  }

  /** The helper chosen performs exactly the events it covers. */
  lemma {:induction false} HelperCovers(cfg: Config, q: seq<Event>, env: Env)
    requires q != [] && QueueOk(cfg, q)
    ensures var c := Choose(cfg, q);
            c.used <= 3 &&
            HelperActs(c.h, env) ==
            EventActs(cfg, q[0], env)
            + (if c.used > 1 then EventActs(cfg, q[1], env) else [])
            + (if c.used > 2 then EventActs(cfg, q[2], env) else [])
  {
    var c := Choose(cfg, q);
    if q[0].IrNoX? && c.used == 2 && q[1].Data() {
      assert q[1-1].Ir() && q[1].n == q[0].n;
    }
  }

  lemma {:induction false} ChosenHelperActs(cfg: Config, q: seq<Event>, env: Env)
    requires q != [] && QueueOk(cfg, q)
    ensures var c := Choose(cfg, q);
            HelperActs(c.h, env) + Pending(cfg, q[c.used..], env) == Pending(cfg, q, env)
  {
    HelperCovers(cfg, q, env);
    var used, acts := Choose(cfg, q).used, HelperActs(Choose(cfg, q).h, env);
    var e0 := EventActs(cfg, q[0], env);
    if used == 1 {
      assert acts == e0;
    } else {
      PendingTwo(cfg, q, env);
      if used == 2 {
        assert acts == e0 + EventActs(cfg, q[1], env);
      } else {
        assert q[2..][0] == q[2] && q[2..][1..] == q[3..];
        Assoc(e0 + EventActs(cfg, q[1], env), EventActs(cfg, q[2], env), Pending(cfg, q[3..], env));
      }
    }
  }

  lemma {:induction false} PendingTwo(cfg: Config, q: seq<Event>, env: Env)
    requires |q| >= 2
    ensures Pending(cfg, q, env) ==
            EventActs(cfg, q[0], env) + EventActs(cfg, q[1], env) + Pending(cfg, q[2..], env)
  {
    assert q[1..][0] == q[1] && q[1..][1..] == q[2..];
    Assoc(EventActs(cfg, q[0], env), EventActs(cfg, q[1], env), Pending(cfg, q[2..], env));
  }

  datatype Ran = Ran(acts: seq<Action>, env: Env)

  predicate Inserted(out: seq<Out>)
  {
    forall j :: 0 <= j < |out| ==> !out[j].Orig?
  }

  /** Running inserted statements only. */
  function RunInserted(out: seq<Out>, env: Env): (r: Ran)
    requires Inserted(out)
  {
    if out == [] then Ran([], env)
    else if out[0].SetTmp? then RunInserted(out[1..], env[out[0].t := EvalExpr(out[0].e, env)])
    else
      var rest := RunInserted(out[1..], env);
      if out[0].guard.Some? && Eval(out[0].guard.value, env) == 0 then rest
      else Ran(HelperActs(out[0].h, env) + rest.acts, rest.env)
  }

  lemma {:induction false} RunInsertedThen(out: seq<Out>, rest: seq<Out>, env: Env, val: Values)
    requires Inserted(out)
    ensures RunOut(out + rest, env, val) ==
            Then(RunInserted(out, env).acts, RunOut(rest, RunInserted(out, env).env, val))
    decreases |out|
  {
    if out == [] {
      assert out + rest == rest;
    } else {
      assert (out + rest)[0] == out[0] && (out + rest)[1..] == out[1..] + rest;
      if out[0].SetTmp? {
        RunInsertedThen(out[1..], rest, env[out[0].t := EvalExpr(out[0].e, env)], val);
      } else {
        RunInsertedThen(out[1..], rest, env, val);
        var tail := RunInserted(out[1..], env);
        assert HelperActs(out[0].h, env) + (tail.acts + RunOut(rest, tail.env, val).acts)
            == HelperActs(out[0].h, env) + tail.acts + RunOut(rest, tail.env, val).acts;
      }
    }
  }

  lemma {:induction false} RunInsertedConcat(p: seq<Out>, q: seq<Out>, env: Env)
    requires Inserted(p) && Inserted(q)
    ensures Inserted(p + q)
    ensures var a := RunInserted(p, env);
            var b := RunInserted(q, a.env);
            RunInserted(p + q, env) == Ran(a.acts + b.acts, b.env)
    decreases |p|
  {
    if p == [] {
      assert p + q == q;
    } else {
      assert (p + q)[0] == p[0] && (p + q)[1..] == p[1..] + q;
      if p[0].SetTmp? {
        RunInsertedConcat(p[1..], q, env[p[0].t := EvalExpr(p[0].e, env)]);
      } else {
        RunInsertedConcat(p[1..], q, env);
      }
    }
  }

  /** Flushing performs the queued events, in order, whatever calls it merges. */
  lemma {:induction false} FlushActs(cfg: Config, q: seq<Event>, env: Env)
    requires QueueOk(cfg, q)
    ensures Inserted(FlushOut(cfg, q))
    ensures RunInserted(FlushOut(cfg, q), env) == Ran(Pending(cfg, q, env), env)
    decreases |q|
  {
    if q != [] {
      var c := Choose(cfg, q);
      ChosenHelperActs(cfg, q, env);
      QueueOkSuffix(cfg, q, c.used);
      FlushActs(cfg, q[c.used..], env);
      var call := [Call(c.h, None)];
      var rest := FlushOut(cfg, q[c.used..]);
      assert (call + rest)[1..] == rest;
    }
  }

  // ------------------------------------------------------------------ one operation preserves meaning

  function LastOf(q: seq<Event>): (l: Last)
  {
    if q != [] && q[|q|-1].Dr? then JustRead(q[|q|-1].n, q[|q|-1].ea, q[|q|-1].sz) else NoRead
  }

  predicate Known(q: seq<Event>, env: Env)
  {
    forall j :: 0 <= j < |q| ==> q[j].Tmps() <= env.Keys
  }

  /** `env'` defines what `env` does, with the same values. */
  ghost predicate Extends(env: Env, env': Env)
  {
    forall t :: t in env ==> t in env' && env'[t] == env[t]
  }

  /** `env'` is `env` with temporaries from `tmp` on added. */
  ghost predicate Grown(env: Env, env': Env, tmp: nat)
  {
    Extends(env, env') && forall t :: t in env' && t !in env ==> tmp <= t
  }

  ghost predicate Below(env: Env, tmp: nat)
  {
    forall t :: t in env ==> t < tmp
  }

  /** Invariant of the queue between operations. */
  ghost predicate Queued(cfg: Config, cap: nat, q: seq<Event>, cur: Inode, env: Env)
  {
    |q| <= cap && QueueOk(cfg, q) && EndsWith(q, cur) && Known(q, env)
  }

  lemma {:induction false} EventActsStable(cfg: Config, e: Event, env: Env, env': Env)
    requires e.Tmps() <= env.Keys && Extends(env, env')
    ensures EventActs(cfg, e, env') == EventActs(cfg, e, env)
  {
  }

  lemma {:induction false} PendingStable(cfg: Config, q: seq<Event>, env: Env, env': Env)
    requires Known(q, env) && Extends(env, env')
    ensures Pending(cfg, q, env') == Pending(cfg, q, env)
  {
    if q != [] {
      EventActsStable(cfg, q[0], env, env');
      PendingStable(cfg, q[1..], env, env');
    }
  }

  /** What an operation must achieve: what ran plus what is still queued is what was queued
      plus the operation's own actions. */
  ghost predicate Achieves(cfg: Config, cap: nat, s: Step, cur: Inode, q: seq<Event>, env: Env, tmp: nat, r: RefStep)
  {
    Inserted(s.emit) &&
    var ran := RunInserted(s.emit, env);
    ran.acts + Pending(cfg, s.q, ran.env) == Pending(cfg, q, env) + r.acts &&
    LastOf(s.q) == r.last &&
    Queued(cfg, cap, s.q, cur, ran.env) &&
    Grown(env, ran.env, tmp) && tmp <= s.tmp && Below(ran.env, s.tmp)
  }

  lemma {:induction false} EnqueueAchieves(cfg: Config, cap: nat, q: seq<Event>, e: Event, cur: Inode, tmp: nat, env: Env)
    requires 1 <= cap && |q| <= cap && QueueOk(cfg, q) && Known(q, env) && Below(env, tmp)
    requires e.Tmps() <= env.Keys && e.n == cur
    requires e.Data() ==> cfg.cacheSim && EndsWith(q, cur)
    ensures Achieves(cfg, cap, Enqueue(cfg, cap, q, e, tmp), cur, q, env, tmp,
                     RefStep(EventActs(cfg, e, env), LastOf([e])))
  {
    var s := Enqueue(cfg, cap, q, e, tmp);
    PendingOne(cfg, e, env);
    if |q| == cap {
      FlushActs(cfg, q, env);
    } else {
      PendingConcat(cfg, q, [e], env);
      assert s.q[..|q|] == q;
      assert forall j :: 0 <= j < |q| ==> s.q[j] == q[j];
    }
  }

  /** Turning the queued read into a modify accounts for the write. */
  lemma {:induction false} MergeAchieves(cfg: Config, cap: nat, q: seq<Event>, cur: Inode, ea: Atom, sz: nat, tmp: nat, env: Env)
    requires Queued(cfg, cap, q, cur, env) && Below(env, tmp)
    requires q != [] && q[|q|-1] == Dr(cur, ea, sz)
    ensures Achieves(cfg, cap, Step([], q[..|q|-1] + [Dm(cur, ea, sz)], tmp), cur, q, env, tmp, RefStep([], NoRead))
  {
    var front, m := q[..|q|-1], Dm(cur, ea, sz);
    assert q == front + [q[|q|-1]];
    PendingConcat(cfg, front, [q[|q|-1]], env);
    PendingConcat(cfg, front, [m], env);
    PendingOne(cfg, q[|q|-1], env);
    PendingOne(cfg, m, env);
    var merged := front + [m];
    forall j | 0 < j < |merged| && merged[j-1].Ir() && merged[j].Data() ensures merged[j].n == merged[j-1].n {
      assert q[j-1] == merged[j-1] && q[j].n == merged[j].n && q[j].Data();
    }
    assert forall j :: 0 <= j < |front| ==> merged[j] == q[j];
  }

  lemma {:induction false} GuardedAchieves(cfg: Config, cap: nat, q: seq<Event>, cur: Inode, h: Helper, g: Atom, tmp: nat, env: Env)
    requires |q| <= cap && QueueOk(cfg, q) && Below(env, tmp)
    ensures Achieves(cfg, cap, Step(FlushOut(cfg, q) + [Call(h, Some(g))], [], tmp), cur, q, env, tmp,
                     RefStep(if Eval(g, env) == 0 then [] else HelperActs(h, env), NoRead))
  {
    FlushActs(cfg, q, env);
    var call := [Call(h, Some(g))];
    assert call[1..] == [];
    RunInsertedConcat(FlushOut(cfg, q), call, env);
  }

  /** The inserted statements compute whether the branch is taken. */
  lemma {:induction false} GuardWidened(g: Atom, inverted: bool, tmp: nat, env: Env)
    requires TmpsOf(g) <= env.Keys && Below(env, tmp)
    ensures Inserted(WidenGuard(g, inverted, tmp))
    ensures var ran := RunInserted(WidenGuard(g, inverted, tmp), env);
            ran.acts == [] && Grown(env, ran.env, tmp) && Below(ran.env, tmp + 3) && tmp + 2 in ran.env &&
            ran.env[tmp + 2] == if (Eval(g, env) != 0) != inverted then 1 else 0
  {
    var w := WidenGuard(g, inverted, tmp);
    var env1 := env[tmp := EvalExpr(w[0].e, env)];
    var env2 := env1[tmp + 1 := EvalExpr(w[1].e, env1)];
    var env3 := env2[tmp + 2 := EvalExpr(w[2].e, env2)];
    assert w[1..][1..] == w[2..] && w[2..][1..] == [];
    assert RunInserted(w[2..], env2) == Ran([], env3);
    assert RunInserted(w[1..], env1) == Ran([], env3);
  }

  /** Running silent statements first changes nothing but the environment. */
  lemma {:induction false} AfterSilent(cfg: Config, cap: nat, pre: seq<Out>, s: Step, cur: Inode, q: seq<Event>, env: Env,
                    tmp: nat, tmp': nat, r: RefStep)
    requires Inserted(pre) && RunInserted(pre, env).acts == [] && Known(q, env) && tmp <= tmp'
    requires Grown(env, RunInserted(pre, env).env, tmp)
    requires Achieves(cfg, cap, s, cur, q, RunInserted(pre, env).env, tmp', r)
    ensures Achieves(cfg, cap, Step(pre + s.emit, s.q, s.tmp), cur, q, env, tmp, r)
  {
    PendingStable(cfg, q, env, RunInserted(pre, env).env);
    RunInsertedConcat(pre, s.emit, env);
  }

  lemma {:induction false} NothingAchieves(cfg: Config, cap: nat, cur: Inode, q: seq<Event>, tmp: nat, env: Env)
    requires Queued(cfg, cap, q, cur, env) && Below(env, tmp)
    ensures Achieves(cfg, cap, Step([], q, tmp), cur, q, env, tmp, RefStep([], LastOf(q)))
  {
  }

  lemma {:induction false} BranchAchieves(cfg: Config, cap: nat, g: Atom, inverted: bool, cur: Inode, q: seq<Event>, tmp: nat, env: Env)
    requires cfg.i1Line > 0 && 1 <= cap && Queued(cfg, cap, q, cur, env) && Below(env, tmp)
    requires TmpsOf(g) <= env.Keys
    ensures Achieves(cfg, cap, DoOp(cfg, cap, OpBranch(g, inverted), cur, q, tmp), cur, q, env, tmp,
                     RefOp(cfg, OpBranch(g, inverted), cur, LastOf(q), env))
  {
    hide Achieves, QueueOk, Inserted;
    var pre := WidenGuard(g, inverted, tmp);
    GuardWidened(g, inverted, tmp, env);
    var env' := RunInserted(pre, env).env;
    var e := Bc(cur, RdTmp(tmp + 2));
    if cfg.branchSim {
      EnqueueAchieves(cfg, cap, q, e, cur, tmp + 3, env');
      AfterSilent(cfg, cap, pre, Enqueue(cfg, cap, q, e, tmp + 3), cur, q, env, tmp, tmp + 3,
                  RefStep(EventActs(cfg, e, env'), LastOf([e])));
    } else {
      NothingAchieves(cfg, cap, cur, q, tmp + 3, env');
      AfterSilent(cfg, cap, pre, Step([], q, tmp + 3), cur, q, env, tmp, tmp + 3, RefStep([], LastOf(q)));
      assert pre + [] == pre;
    }
  }

  lemma {:induction false} IrAchieves(cfg: Config, cap: nat, n: Inode, q: seq<Event>, tmp: nat, env: Env)
    requires cfg.i1Line > 0 && 1 <= cap && |q| <= cap && QueueOk(cfg, q) && Known(q, env) && Below(env, tmp)
    ensures Achieves(cfg, cap, DoOp(cfg, cap, OpIr(n), n, q, tmp), n, q, env, tmp,
                     RefOp(cfg, OpIr(n), n, LastOf(q), env))
  {
    var e := if Hierarchy.IsIrNoX(n.addr, n.len, cfg.i1Line, cfg.llLine) then IrNoX(n) else IrGen(n);
    EnqueueAchieves(cfg, cap, q, e, n, tmp, env);
  }

  lemma {:induction false} WriteAchieves(cfg: Config, cap: nat, ea: Atom, sz: nat, cur: Inode, q: seq<Event>, tmp: nat, env: Env)
    requires cfg.i1Line > 0 && 1 <= cap && Queued(cfg, cap, q, cur, env) && Below(env, tmp)
    requires TmpsOf(ea) <= env.Keys
    ensures Achieves(cfg, cap, DoOp(cfg, cap, OpWrite(ea, sz), cur, q, tmp), cur, q, env, tmp,
                     RefOp(cfg, OpWrite(ea, sz), cur, LastOf(q), env))
  {
    if !cfg.cacheSim {
      NothingAchieves(cfg, cap, cur, q, tmp, env);
    } else if q != [] && q[|q|-1] == Dr(cur, ea, sz) {
      MergeAchieves(cfg, cap, q, cur, ea, sz, tmp, env);
    } else {
      EnqueueAchieves(cfg, cap, q, Dw(cur, ea, sz), cur, tmp, env);
    }
  }

  lemma {:induction false} FlushAchieves(cfg: Config, cap: nat, cur: Inode, q: seq<Event>, tmp: nat, env: Env)
    requires cfg.i1Line > 0 && 1 <= cap && Queued(cfg, cap, q, cur, env) && Below(env, tmp)
    ensures Achieves(cfg, cap, DoOp(cfg, cap, OpFlush, cur, q, tmp), cur, q, env, tmp,
                     RefOp(cfg, OpFlush, cur, LastOf(q), env))
  {
    FlushActs(cfg, q, env);
  }

  lemma {:induction false} OtherAchieves(cfg: Config, cap: nat, op: Op, cur: Inode, q: seq<Event>, tmp: nat, env: Env)
    requires cfg.i1Line > 0 && 1 <= cap && Queued(cfg, cap, q, cur, env) && Below(env, tmp)
    requires op.OpRead? || op.OpGuarded? || op.OpIndirect? || op.OpFlush?
    requires op.Tmps() <= env.Keys
    ensures Achieves(cfg, cap, DoOp(cfg, cap, op, cur, q, tmp), cur, q, env, tmp,
                     RefOp(cfg, op, cur, LastOf(q), env))
  {
    hide Achieves, QueueOk, Known, Below, Inserted;
    NothingAchieves(cfg, cap, cur, q, tmp, env);
    match op
    case OpRead(ea, sz) =>
      if cfg.cacheSim { EnqueueAchieves(cfg, cap, q, Dr(cur, ea, sz), cur, tmp, env); }
    case OpGuarded(ea, sz, g, isWrite) =>
      GuardedAchieves(cfg, cap, q, cur, if isWrite then Log0Ir1Dw(cur, ea, sz) else Log0Ir1Dr(cur, ea, sz), g, tmp, env);
    case OpIndirect(a) =>
      if cfg.branchSim { EnqueueAchieves(cfg, cap, q, Bi(cur, a), cur, tmp, env); }
    case OpFlush => FlushAchieves(cfg, cap, cur, q, tmp, env);
  }

  /** Is the queue ready for the operation?  A fetch starts a new instruction. */
  ghost predicate Ready(op: Op, q: seq<Event>, cur: Inode)
  {
    if op.OpIr? then op.fetched == cur else EndsWith(q, cur)
  }

  lemma {:induction false} OpAchieves(cfg: Config, cap: nat, op: Op, cur: Inode, q: seq<Event>, tmp: nat, env: Env)
    requires cfg.i1Line > 0 && 1 <= cap && |q| <= cap && QueueOk(cfg, q) && Known(q, env) && Below(env, tmp)
    requires Ready(op, q, cur) && op.Tmps() <= env.Keys
    ensures Achieves(cfg, cap, DoOp(cfg, cap, op, cur, q, tmp), cur, q, env, tmp,
                     RefOp(cfg, op, cur, LastOf(q), env))
  {
    match op
    case OpIr(n) => IrAchieves(cfg, cap, n, q, tmp, env);
    case OpWrite(ea, sz) => WriteAchieves(cfg, cap, ea, sz, cur, q, tmp, env);
    case OpBranch(g, inverted) => BranchAchieves(cfg, cap, g, inverted, cur, q, tmp, env);
    case _ => OtherAchieves(cfg, cap, op, cur, q, tmp, env);
  }

  // ------------------------------------------------------------------ a whole statement

  ghost predicate OpsReady(ops: seq<Op>, q: seq<Event>, cur: Inode)
  {
    (if ops == [] then EndsWith(q, cur) else Ready(ops[0], q, cur)) &&
    forall j :: 0 < j < |ops| ==> !ops[j].OpIr?
  }

  ghost predicate OpsKnown(ops: seq<Op>, env: Env)
  {
    forall j :: 0 <= j < |ops| ==> ops[j].Tmps() <= env.Keys
  }

  lemma {:induction false} RefOpStable(cfg: Config, op: Op, cur: Inode, last: Last, env: Env, env': Env)
    requires cfg.i1Line > 0 && op.Tmps() <= env.Keys && Extends(env, env')
    ensures RefOp(cfg, op, cur, last, env') == RefOp(cfg, op, cur, last, env)
  {
  }

  lemma {:induction false} AchievesThen(cfg: Config, cap: nat, s1: Step, s2: Step, cur: Inode, q: seq<Event>, env: Env, tmp: nat,
                     r1: RefStep, r2: RefStep)
    requires Achieves(cfg, cap, s1, cur, q, env, tmp, r1)
    requires Achieves(cfg, cap, s2, cur, s1.q, RunInserted(s1.emit, env).env, s1.tmp, r2)
    ensures Achieves(cfg, cap, Step(s1.emit + s2.emit, s2.q, s2.tmp), cur, q, env, tmp,
                     RefStep(r1.acts + r2.acts, r2.last))
  {
    RunInsertedConcat(s1.emit, s2.emit, env);
    var ran1 := RunInserted(s1.emit, env);
    var ran2 := RunInserted(s2.emit, ran1.env);
    var pending := Pending(cfg, s2.q, ran2.env);
    calc {
      ran1.acts + ran2.acts + pending;
      { Assoc(ran1.acts, ran2.acts, pending); }
      ran1.acts + (ran2.acts + pending);
      ran1.acts + (Pending(cfg, s1.q, ran1.env) + r2.acts);
      { Assoc(ran1.acts, Pending(cfg, s1.q, ran1.env), r2.acts); }
      Pending(cfg, q, env) + r1.acts + r2.acts;
      { Assoc(Pending(cfg, q, env), r1.acts, r2.acts); }
      Pending(cfg, q, env) + (r1.acts + r2.acts);
    }
  }

  lemma {:induction false} OpsAchieve(cfg: Config, cap: nat, ops: seq<Op>, cur: Inode, q: seq<Event>, tmp: nat,
                                      env0: Env, env: Env)
    requires cfg.i1Line > 0 && 1 <= cap && |q| <= cap && QueueOk(cfg, q) && Known(q, env) && Below(env, tmp)
    requires OpsReady(ops, q, cur) && OpsKnown(ops, env0) && Extends(env0, env)
    ensures Achieves(cfg, cap, DoOps(cfg, cap, ops, cur, q, tmp), cur, q, env, tmp,
                     RefOps(cfg, ops, cur, LastOf(q), env0))
    decreases |ops|
  {
    if ops == [] {
      NothingAchieves(cfg, cap, cur, q, tmp, env);
    } else {
      OpAchieves(cfg, cap, ops[0], cur, q, tmp, env);
      RefOpStable(cfg, ops[0], cur, LastOf(q), env0, env);
      var first := DoOp(cfg, cap, ops[0], cur, q, tmp);
      var r := RefOp(cfg, ops[0], cur, LastOf(q), env0);
      var env1 := RunInserted(first.emit, env).env;
      OpsAchieve(cfg, cap, ops[1..], cur, first.q, first.tmp, env0, env1);
      AchievesThen(cfg, cap, first, DoOps(cfg, cap, ops[1..], cur, first.q, first.tmp), cur, q, env, tmp,
                   r, RefOps(cfg, ops[1..], cur, r.last, env0));
    }
  }

  // ------------------------------------------------------------------ the whole block

  /** What the pass relies on: each temporary is set once, before it is used, and the
      block's own temporaries are numbered below `blk.tmps`. */
  ghost predicate WellFormed(blk: Block, i: nat, defined: set<nat>)
    requires i <= |blk.stmts|
    decreases |blk.stmts| - i
  {
    if i == |blk.stmts| then TmpsOf(blk.next) <= defined
    else
      var st := blk.stmts[i];
      Uses(st) <= defined && Defs(st) !! defined && (forall t :: t in Defs(st) ==> t < blk.tmps) &&
      WellFormed(blk, i + 1, defined + Defs(st))
  }

  /** Standing of the pass before statement `p.i`: `env0` is the original block's
      environment and `env` the instrumented block's. */
  ghost predicate Standing(cfg: Config, cap: nat, blk: Block, p: Pass, env0: Env, env: Env)
  {
    cfg.i1Line > 0 && 1 <= cap && p.i <= |blk.stmts| && WellFormed(blk, p.i, env0.Keys) &&
    Queued(cfg, cap, p.q, p.cur, env) && (p.i <= FirstMark(blk.stmts) ==> p.q == []) &&
    blk.tmps <= p.tmp && Below(env, p.tmp) && Grown(env0, env, blk.tmps)
  }

  lemma {:induction false} StmtAchieves(cfg: Config, cap: nat, blk: Block, p: Pass, env0: Env, env: Env)
    requires Standing(cfg, cap, blk, p, env0, env) && p.i < |blk.stmts|
    requires FirstMark(blk.stmts) <= p.i
    ensures var st := blk.stmts[p.i];
            var cur := NextInode(cfg, st, p.cur, p.slot);
            Achieves(cfg, cap, StmtStep(cfg, cap, blk, p), cur, p.q, env, p.tmp,
                     RefOps(cfg, Ops(cfg, st, cur), cur, LastOf(p.q), env0))
  {
    hide RefOps;
    var st := blk.stmts[p.i];
    var cur := NextInode(cfg, st, p.cur, p.slot);
    OpsAchieve(cfg, cap, Ops(cfg, st, cur), cur, p.q, p.tmp, env0, env);
  }

  /** Nothing is left in the queue at an exit. */
  lemma {:induction false} FlushedAtEnd(cfg: Config, cap: nat, ops: seq<Op>, cur: Inode, q: seq<Event>, tmp: nat)
    requires cfg.i1Line > 0 && ops != [] && ops[|ops|-1] == OpFlush
    ensures DoOps(cfg, cap, ops, cur, q, tmp).q == []
    decreases |ops|
  {
    var first := DoOp(cfg, cap, ops[0], cur, q, tmp);
    if |ops| > 1 {
      FlushedAtEnd(cfg, cap, ops[1..], cur, first.q, first.tmp);
    } else {
      assert DoOps(cfg, cap, ops[1..], cur, first.q, first.tmp).q == first.q;
    }
  }

  /** Executing a statement preserves the standing of the pass. */
  lemma {:induction false} StandingKept(cfg: Config, cap: nat, blk: Block, p: Pass, s: Step, env0: Env, env: Env, env1: Env, val: Values)
    requires Standing(cfg, cap, blk, p, env0, env) && p.i < |blk.stmts|
    requires Queued(cfg, cap, s.q, After(cfg, blk, p, s).cur, env1) && (p.i < FirstMark(blk.stmts) ==> s.q == [])
    requires Grown(env, env1, p.tmp) && p.tmp <= s.tmp && Below(env1, s.tmp)
    ensures var st := blk.stmts[p.i];
            Extends(env1, Assign(env1, p.i, st, val)) &&
            Standing(cfg, cap, blk, After(cfg, blk, p, s), Assign(env0, p.i, st, val), Assign(env1, p.i, st, val))
  {
    var st := blk.stmts[p.i];
    var env0', env1' := Assign(env0, p.i, st, val), Assign(env1, p.i, st, val);
    assert Defs(st) !! env1.Keys;
    assert env0'.Keys == env0.Keys + Defs(st);
    assert Extends(env1, env1');
  }

  function Cur(cfg: Config, blk: Block, p: Pass): (n: Inode)
    requires p.i < |blk.stmts|
  {
    NextInode(cfg, blk.stmts[p.i], p.cur, p.slot)
  }

  /** The reference actions of the statement at `p`. */
  function Now(cfg: Config, blk: Block, p: Pass, env0: Env): (r: RefStep)
    requires cfg.i1Line > 0 && p.i < |blk.stmts|
  {
    var cur := Cur(cfg, blk, p);
    if FirstMark(blk.stmts) <= p.i then RefOps(cfg, Ops(cfg, blk.stmts[p.i], cur), cur, LastOf(p.q), env0)
    else RefStep([], LastOf(p.q))
  }

  lemma {:induction false} StepAchieves(cfg: Config, cap: nat, blk: Block, p: Pass, env0: Env, env: Env)
    requires Standing(cfg, cap, blk, p, env0, env) && p.i < |blk.stmts|
    ensures Achieves(cfg, cap, StmtStep(cfg, cap, blk, p), Cur(cfg, blk, p), p.q, env, p.tmp, Now(cfg, blk, p, env0))
    ensures p.i < FirstMark(blk.stmts) ==> StmtStep(cfg, cap, blk, p).q == []
    ensures blk.stmts[p.i].Exit? ==> StmtStep(cfg, cap, blk, p).q == []
  {
    var st := blk.stmts[p.i];
    if FirstMark(blk.stmts) <= p.i {
      StmtAchieves(cfg, cap, blk, p, env0, env);
      if st.Exit? {
        FlushedAtEnd(cfg, cap, Ops(cfg, st, p.cur), p.cur, p.q, p.tmp);
      }
    } else {
      NothingAchieves(cfg, cap, p.cur, p.q, p.tmp, env);
    }
  }

  /** Running what is emitted for the statement at `p` and then the rest. */
  lemma {:induction false} TraverseStep(cfg: Config, cap: nat, blk: Block, p: Pass, env: Env, val: Values)
    requires cfg.i1Line > 0 && p.i < |blk.stmts| && Inserted(StmtStep(cfg, cap, blk, p).emit)
    ensures var s, st := StmtStep(cfg, cap, blk, p), blk.stmts[p.i];
            var ran := RunInserted(s.emit, env);
            RunOut(Traverse(cfg, cap, blk, p), env, val) ==
            Then(ran.acts,
                 if Leaves(st, ran.env) then Run([], Some(p.i))
                 else RunOut(Traverse(cfg, cap, blk, After(cfg, blk, p, s)), Assign(ran.env, p.i, st, val), val))
  {
    var s, o := StmtStep(cfg, cap, blk, p), Orig(p.i, blk.stmts[p.i]);
    var rest := Traverse(cfg, cap, blk, After(cfg, blk, p, s));
    Assoc(s.emit, [o], rest);
    RunInsertedThen(s.emit, [o] + rest, env, val);
    assert ([o] + rest)[0] == o && ([o] + rest)[1..] == rest;
  }

  function LaterRef(cfg: Config, blk: Block, p: Pass, env0: Env, val: Values): (r: Run)
    requires cfg.i1Line > 0 && p.i <= |blk.stmts|
  {
    RunRef(cfg, blk, p.i, p.cur, p.slot, LastOf(p.q), env0, val)
  }

  lemma {:induction false} Regroup(acts: seq<Action>, left: seq<Action>, due: seq<Action>, now: seq<Action>, r: Run)
    requires acts + left == due + now
    ensures Then(acts, Then(left, r)) == Then(due, Then(now, r))
  {
    Assoc(acts, left, r.acts);
    Assoc(due, now, r.acts);
  }

  lemma {:induction false} LaterRefStep(cfg: Config, blk: Block, p: Pass, s: Step, env0: Env, val: Values)
    requires cfg.i1Line > 0 && p.i < |blk.stmts| && LastOf(s.q) == Now(cfg, blk, p, env0).last
    ensures LaterRef(cfg, blk, p, env0, val) ==
            Then(Now(cfg, blk, p, env0).acts,
                 if Leaves(blk.stmts[p.i], env0) then Run([], Some(p.i))
                 else LaterRef(cfg, blk, After(cfg, blk, p, s), Assign(env0, p.i, blk.stmts[p.i], val), val))
  {
  }

  lemma {:induction false} LeavesAlike(cfg: Config, cap: nat, blk: Block, p: Pass, env0: Env, env: Env, val: Values)
    requires Standing(cfg, cap, blk, p, env0, env) && p.i < |blk.stmts| && Leaves(blk.stmts[p.i], env0)
    ensures RunOut(Traverse(cfg, cap, blk, p), env, val) ==
            Then(Pending(cfg, p.q, env), LaterRef(cfg, blk, p, env0, val))
  {
    StepAchieves(cfg, cap, blk, p, env0, env);
    TraverseStep(cfg, cap, blk, p, env, val);
    var s := StmtStep(cfg, cap, blk, p);
    LaterRefStep(cfg, blk, p, s, env0, val);
    Regroup(RunInserted(s.emit, env).acts, [], Pending(cfg, p.q, env), Now(cfg, blk, p, env0).acts, Run([], Some(p.i)));
  }

  lemma {:induction false} StaysAlike(cfg: Config, cap: nat, blk: Block, p: Pass, env0: Env, env: Env, val: Values, later: Run)
    requires Standing(cfg, cap, blk, p, env0, env) && p.i < |blk.stmts| && !Leaves(blk.stmts[p.i], env0)
    requires var s, st := StmtStep(cfg, cap, blk, p), blk.stmts[p.i];
             Inserted(s.emit) &&
             var env1 := RunInserted(s.emit, env).env;
             Extends(env1, Assign(env1, p.i, st, val)) &&
             RunOut(Traverse(cfg, cap, blk, After(cfg, blk, p, s)), Assign(env1, p.i, st, val), val) ==
             Then(Pending(cfg, s.q, Assign(env1, p.i, st, val)), later)
    ensures RunOut(Traverse(cfg, cap, blk, p), env, val) ==
            Then(Pending(cfg, p.q, env), Then(Now(cfg, blk, p, env0).acts, later))
  {
    hide Traverse, RunOut, QueueOk, EndsWith, RunInserted, FirstMark;
    StepAchieves(cfg, cap, blk, p, env0, env);
    TraverseStep(cfg, cap, blk, p, env, val);
    var s, st := StmtStep(cfg, cap, blk, p), blk.stmts[p.i];
    var ran := RunInserted(s.emit, env);
    assert !Leaves(st, ran.env);
    PendingStable(cfg, s.q, ran.env, Assign(ran.env, p.i, st, val));
    Regroup(ran.acts, Pending(cfg, s.q, ran.env), Pending(cfg, p.q, env), Now(cfg, blk, p, env0).acts, later);
  }

  /** From any point of the pass: running what is still to be emitted performs the queued
      events and then the events of the remaining executed statements. */
  lemma {:induction false} RestRunsAlike(cfg: Config, cap: nat, blk: Block, p: Pass, env0: Env, env: Env, val: Values)
    requires Standing(cfg, cap, blk, p, env0, env)
    ensures RunOut(Traverse(cfg, cap, blk, p), env, val) ==
            Then(Pending(cfg, p.q, env), LaterRef(cfg, blk, p, env0, val))
    decreases |blk.stmts| - p.i
  {
    if p.i == |blk.stmts| {
      EndRunsAlike(cfg, cap, blk, p, env0, env, val);
    } else if Leaves(blk.stmts[p.i], env0) {
      LeavesAlike(cfg, cap, blk, p, env0, env, val);
    } else {
      var s, st := StmtStep(cfg, cap, blk, p), blk.stmts[p.i];
      StepAchieves(cfg, cap, blk, p, env0, env);
      var env1, p' := RunInserted(s.emit, env).env, After(cfg, blk, p, s);
      StandingKept(cfg, cap, blk, p, s, env0, env, env1, val);
      var env0', env' := Assign(env0, p.i, st, val), Assign(env1, p.i, st, val);
      RestRunsAlike(cfg, cap, blk, p', env0', env', val);
      StaysAlike(cfg, cap, blk, p, env0, env, val, LaterRef(cfg, blk, p', env0', val));
      LaterRefStep(cfg, blk, p, s, env0, val);
    }
  }

  lemma {:induction false} EndRunsAlike(cfg: Config, cap: nat, blk: Block, p: Pass, env0: Env, env: Env, val: Values)
    requires Standing(cfg, cap, blk, p, env0, env) && p.i == |blk.stmts|
    ensures RunOut(Traverse(cfg, cap, blk, p), env, val) ==
            Then(Pending(cfg, p.q, env), RunRef(cfg, blk, p.i, p.cur, p.slot, LastOf(p.q), env0, val))
  {
    var ops := EndOps(blk);
    OpsAchieve(cfg, cap, ops, p.cur, p.q, p.tmp, env0, env);
    FlushedAtEnd(cfg, cap, ops, p.cur, p.q, p.tmp);
    var s := DoOps(cfg, cap, ops, p.cur, p.q, p.tmp);
    RunInsertedThen(s.emit, [], env, val);
    assert s.emit + [] == s.emit;
  }

  /** Main theorem: for every block, every run of it and every exit it is left by, the
      instrumented block performs exactly the actions its executed statements mean, in order,
      and leaves at the same exit; for every queue capacity. */
  lemma {:induction false} InstrumentedRunsAlike(cfg: Config, cap: nat, blk: Block, env: Env, val: Values)
    requires cfg.i1Line > 0 && 1 <= cap && WellFormed(blk, 0, env.Keys) && Below(env, blk.tmps)
    ensures RunOut(Traverse(cfg, cap, blk, Start(blk)), env, val) ==
            Meaning(cfg, blk, 0, env, val)
  {
    RestRunsAlike(cfg, cap, blk, Start(blk), env, env, val);
    RunMeans(cfg, blk, 0, env, val);
  }

  // ------------------------------------------------------------------ erasing the instrumentation

  function Erase(out: seq<Out>): (r: seq<Out>)
  {
    if out == [] then [] else (if out[0].Orig? then [out[0]] else []) + Erase(out[1..])
  }

  lemma {:induction false} EraseConcat(p: seq<Out>, q: seq<Out>)
    ensures Erase(p + q) == Erase(p) + Erase(q)
  {
    if p == [] {
      assert p + q == q;
    } else {
      EraseConcat(p[1..], q);
      assert (p + q)[0] == p[0] && (p + q)[1..] == p[1..] + q;
      Assoc(if p[0].Orig? then [p[0]] else [], Erase(p[1..]), Erase(q));
    }
  }

  lemma {:induction false} EraseInserted(p: seq<Out>)
    requires Inserted(p)
    ensures Erase(p) == []
  {
    if p != [] { EraseInserted(p[1..]); }
  }

  lemma {:induction false} FlushInserted(cfg: Config, q: seq<Event>)
    ensures Inserted(FlushOut(cfg, q))
    decreases |q|
  {
    if q != [] { FlushInserted(cfg, q[Choose(cfg, q).used..]); }
  }

  lemma {:induction false} OpsInsert(cfg: Config, cap: nat, ops: seq<Op>, cur: Inode, q: seq<Event>, tmp: nat)
    requires cfg.i1Line > 0
    ensures Inserted(DoOps(cfg, cap, ops, cur, q, tmp).emit)
    decreases |ops|
  {
    FlushInserted(cfg, q);
    if ops != [] {
      var first := DoOp(cfg, cap, ops[0], cur, q, tmp);
      OpsInsert(cfg, cap, ops[1..], cur, first.q, first.tmp);
    }
  }

  /** The original statements from `i` on, as they appear in the output. */
  function Originals(blk: Block, i: nat): (out: seq<Out>)
    requires i <= |blk.stmts|
    decreases |blk.stmts| - i
  {
    if i == |blk.stmts| then [] else [Orig(i, blk.stmts[i])] + Originals(blk, i + 1)
  }

  lemma {:induction false} StmtInserts(cfg: Config, cap: nat, blk: Block, p: Pass)
    requires cfg.i1Line > 0 && p.i < |blk.stmts|
    ensures Inserted(StmtStep(cfg, cap, blk, p).emit)
  {
    OpsInsert(cfg, cap, Ops(cfg, blk.stmts[p.i], Cur(cfg, blk, p)), Cur(cfg, blk, p), p.q, p.tmp);
  }

  lemma {:induction false} EraseOne(emit: seq<Out>, o: Out, rest: seq<Out>)
    requires Inserted(emit) && o.Orig?
    ensures Erase(emit + [o] + rest) == [o] + Erase(rest)
  {
    EraseConcat(emit + [o], rest);
    EraseConcat(emit, [o]);
    EraseInserted(emit);
    assert [o][1..] == [];
  }

  /** Erasing what the pass inserted gives back the original block, for every block. */
  lemma {:induction false} ErasureIsOriginal(cfg: Config, cap: nat, blk: Block, p: Pass)
    requires cfg.i1Line > 0 && p.i <= |blk.stmts|
    ensures Erase(Traverse(cfg, cap, blk, p)) == Originals(blk, p.i)
    decreases |blk.stmts| - p.i
  {
    if p.i == |blk.stmts| {
      OpsInsert(cfg, cap, EndOps(blk), p.cur, p.q, p.tmp);
      EraseInserted(DoOps(cfg, cap, EndOps(blk), p.cur, p.q, p.tmp).emit);
    } else {
      var s := StmtStep(cfg, cap, blk, p);
      StmtInserts(cfg, cap, blk, p);
      ErasureIsOriginal(cfg, cap, blk, After(cfg, blk, p, s));
      EraseOne(s.emit, Orig(p.i, blk.stmts[p.i]), Traverse(cfg, cap, blk, After(cfg, blk, p, s)));
    }
  }
}
