/** What Cachegrind's instrumentation pass works on and what it is for: blocks of flat IR,
    the events queued for their statements, the helpers called for them, and as a reference
    the actions of a run of a block, each executed statement's events taken one at a time
    and in order. */
module Instrument {
  import opened Arith
  import opened Options
  import Hierarchy

  // ------------------------------------------------------------------ the block

  /** A flat operand: a constant or a temporary. */
  datatype Atom = Const(v: nat) | RdTmp(t: nat)

  datatype JumpKind = Boring | CallJump | Ret | OtherJump

  datatype Effect = ReadFx | WriteFx | ModifyFx

  /** IR statements, as far as the pass looks at them; `defs` are the temporaries set. */
  datatype Stmt =
    | Plain(defs: set<nat>)
    | IMark(addr: nat, len: nat)
    | Load(defs: set<nat>, ea: Atom, size: nat)
    | Store(ea: Atom, size: nat)
    | StoreG(ea: Atom, size: nat, guard: Atom)
    | LoadG(defs: set<nat>, ea: Atom, size: nat, guard: Atom)
    | Dirty(defs: set<nat>, fx: Effect, ea: Atom, size: nat)
    | Cas(defs: set<nat>, ea: Atom, size: nat, double: bool)
    | LoadLinked(defs: set<nat>, ea: Atom, size: nat)
    | StoreCond(defs: set<nat>, ea: Atom, size: nat)
    | Exit(guard: Atom, kind: JumpKind, dst: nat)

  datatype Block = Block(stmts: seq<Stmt>, next: Atom, kind: JumpKind, tmps: nat)

  datatype Config = Config(cacheSim: bool, branchSim: bool, minLine: nat, minInstr: nat,
                           i1Line: nat, llLine: nat)

  function Defs(st: Stmt): set<nat>
  {
    match st
    case IMark(_, _) => {}
    case Store(_, _) => {}
    case StoreG(_, _, _) => {}
    case Exit(_, _, _) => {}
    case _ => st.defs
  }

  function TmpsOf(a: Atom): set<nat>
  {
    if a.RdTmp? then {a.t} else {}
  }

  /** The operands the pass refers to again in the calls it emits. */
  function Uses(st: Stmt): set<nat>
  {
    match st
    case Plain(_) => {}
    case IMark(_, _) => {}
    case StoreG(ea, _, g) => TmpsOf(ea) + TmpsOf(g)
    case LoadG(_, ea, _, g) => TmpsOf(ea) + TmpsOf(g)
    case Exit(g, _, _) => TmpsOf(g)
    case _ => TmpsOf(st.ea)
  }

  // ------------------------------------------------------------------ events and calls

  /** Per-instruction record, identified by its slot in the block's table. */
  datatype Inode = Inode(slot: nat, addr: nat, len: nat)

  datatype Event =
    | IrNoX(n: Inode)
    | IrGen(n: Inode)
    | Dr(n: Inode, ea: Atom, sz: nat)
    | Dw(n: Inode, ea: Atom, sz: nat)
    | Dm(n: Inode, ea: Atom, sz: nat)
    | Bc(n: Inode, taken: Atom)
    | Bi(n: Inode, dst: Atom)
  {
    predicate Data() { Dr? || Dw? || Dm? }
    predicate Ir() { IrNoX? || IrGen? }
    function Tmps(): set<nat>
    {
      match this
      case IrNoX(_) => {}
      case IrGen(_) => {}
      case Bc(_, a) => TmpsOf(a)
      case Bi(_, a) => TmpsOf(a)
      case _ => TmpsOf(ea)
    }
  }

  datatype Helper =
    | Log1Ir(n: Inode)
    | Log2Ir(n: Inode, n2: Inode)
    | Log3Ir(n: Inode, n2: Inode, n3: Inode)
    | Log1IrGen0D(n: Inode)
    | Log1IrNoX0D(n: Inode)
    | Log2IrNoX0D(n: Inode, n2: Inode)
    | Log3IrNoX0D(n: Inode, n2: Inode, n3: Inode)
    | Log1IrNoX1Dr(n: Inode, ea: Atom, sz: nat)
    | Log1IrNoX1Dw(n: Inode, ea: Atom, sz: nat)
    | Log0Ir1Dr(n: Inode, ea: Atom, sz: nat)
    | Log0Ir1Dw(n: Inode, ea: Atom, sz: nat)
    | LogCondBranch(n: Inode, taken: Atom)
    | LogIndBranch(n: Inode, dst: Atom)

  datatype Expr = Copy(a: Atom) | Widen(a: Atom) | XorOne(a: Atom)

  /** Statements of the instrumented block. */
  datatype Out =
    | Orig(i: nat, st: Stmt)
    | SetTmp(t: nat, e: Expr)
    | Call(h: Helper, guard: Option<Atom>)

  // ------------------------------------------------------------------ running a block

  type Env = map<nat, nat>

  function Eval(a: Atom, env: Env): (v: nat)
  {
    match a
    case Const(v) => v
    case RdTmp(t) => if t in env then env[t] else 0
  }

  function EvalExpr(e: Expr, env: Env): (v: nat)
  {
    match e
    case Copy(a) => Eval(a, env)
    case Widen(a) => if Eval(a, env) != 0 then 1 else 0
    case XorOne(a) => if Eval(a, env) % 2 == 1 then Eval(a, env) - 1 else Eval(a, env) + 1
  }

  /** What a helper does to the simulators and counters: count an instruction without
      simulating it, fetch (within one line, or in general), read, write, or consult a
      branch predictor. */
  datatype Action =
    | Count(n: Inode)
    | FetchNoX(n: Inode)
    | FetchGen(n: Inode)
    | Read(n: Inode, addr: nat, size: nat)
    | Write(n: Inode, addr: nat, size: nat)
    | Cond(n: Inode, taken: nat)
    | Ind(n: Inode, dst: nat)

  function HelperActs(h: Helper, env: Env): (acts: seq<Action>)
  {
    match h
    case Log1Ir(n) => [Count(n)]
    case Log2Ir(n, n2) => [Count(n), Count(n2)]
    case Log3Ir(n, n2, n3) => [Count(n), Count(n2), Count(n3)]
    case Log1IrGen0D(n) => [FetchGen(n)]
    case Log1IrNoX0D(n) => [FetchNoX(n)]
    case Log2IrNoX0D(n, n2) => [FetchNoX(n), FetchNoX(n2)]
    case Log3IrNoX0D(n, n2, n3) => [FetchNoX(n), FetchNoX(n2), FetchNoX(n3)]
    case Log1IrNoX1Dr(n, ea, sz) => [FetchNoX(n), Read(n, Eval(ea, env), sz)]
    case Log1IrNoX1Dw(n, ea, sz) => [FetchNoX(n), Write(n, Eval(ea, env), sz)]
    case Log0Ir1Dr(n, ea, sz) => [Read(n, Eval(ea, env), sz)]
    case Log0Ir1Dw(n, ea, sz) => [Write(n, Eval(ea, env), sz)]
    case LogCondBranch(n, a) => [Cond(n, Eval(a, env))]
    case LogIndBranch(n, a) => [Ind(n, Eval(a, env))]
  }

  /** Values the program computes: what statement `i` assigns to temporary `t`.  A run of
      a block is determined by these and the initial environment. */
  type Values = (nat, nat) -> nat

  function Assign(env: Env, i: nat, st: Stmt, val: Values): (e: Env)
  {
    env + map t | t in Defs(st) :: val(i, t)
  }

  /** Actions performed and the exit statement taken, if the end was not reached. */
  datatype Run = Run(acts: seq<Action>, exit: Option<nat>)

  function Then(acts: seq<Action>, r: Run): (s: Run)
  {
    Run(acts + r.acts, r.exit)
  }

  predicate Leaves(st: Stmt, env: Env)
  {
    st.Exit? && Eval(st.guard, env) != 0
  }

  function RunOut(out: seq<Out>, env: Env, val: Values): (r: Run)
    decreases |out|
  {
    if out == [] then Run([], None)
    else match out[0]
      case Orig(i, st) =>
        if Leaves(st, env) then Run([], Some(i))
        else RunOut(out[1..], Assign(env, i, st, val), val)
      case SetTmp(t, e) => RunOut(out[1..], env[t := EvalExpr(e, env)], val)
      case Call(h, guard) =>
        if guard.Some? && Eval(guard.value, env) == 0 then RunOut(out[1..], env, val)
        else Then(HelperActs(h, env), RunOut(out[1..], env, val))
  }

  // ------------------------------------------------------------------ the operations of the pass

  /** What the traversal asks for when it meets a statement. */
  datatype Op =
    | OpIr(fetched: Inode)
    | OpRead(ea: Atom, sz: nat)
    | OpWrite(ea: Atom, sz: nat)
    | OpGuarded(ea: Atom, sz: nat, guard: Atom, isWrite: bool)
    | OpBranch(guard: Atom, inverted: bool)
    | OpIndirect(dst: Atom)
    | OpFlush
  {
    function Tmps(): set<nat>
    {
      match this
      case OpIr(_) => {}
      case OpRead(a, _) => TmpsOf(a)
      case OpWrite(a, _) => TmpsOf(a)
      case OpGuarded(a, _, g, _) => TmpsOf(a) + TmpsOf(g)
      case OpBranch(g, _) => TmpsOf(g)
      case OpIndirect(a) => TmpsOf(a)
      case OpFlush => {}
    }
  }

  /** The instruction record current after statement `st`: a mark takes the next slot. */
  function NextInode(cfg: Config, st: Stmt, cur: Inode, slot: nat): (n: Inode)
  {
    if st.IMark? then Inode(slot, st.addr, if st.len == 0 then cfg.minInstr else st.len) else cur
  }

  /** The operations of one statement, the current record being `cur`. */
  function Ops(cfg: Config, st: Stmt, cur: Inode): (ops: seq<Op>)
  {
    match st
    case Plain(_) => []
    case IMark(_, _) => [OpIr(cur)]
    case Load(_, ea, size) => [OpRead(ea, size)]
    case Store(ea, size) => [OpWrite(ea, size)]
    case StoreG(ea, size, g) => [OpGuarded(ea, size, g, true)]
    case LoadG(_, ea, size, g) => [OpGuarded(ea, size, g, false)]
    case Dirty(_, fx, ea, size) =>
      var sz := Min(size, cfg.minLine);
      (if fx != WriteFx then [OpRead(ea, sz)] else []) + (if fx != ReadFx then [OpWrite(ea, sz)] else [])
    case Cas(_, ea, size, double) =>
      var sz := Min(if double then 2 * size else size, cfg.minLine);
      [OpRead(ea, sz), OpWrite(ea, sz)]
    case LoadLinked(_, ea, size) => [OpRead(ea, size), OpFlush]
    case StoreCond(_, ea, size) => [OpWrite(ea, size)]
    case Exit(g, kind, dst) =>
      (if kind == OtherJump then [] else [OpBranch(g, (cur.addr + cur.len) % WORD == dst)]) + [OpFlush]
  }

  /** The operations at the end of the block: an indirect branch unless it is a return. */
  function EndOps(blk: Block): (ops: seq<Op>)
  {
    (if (blk.kind == Boring || blk.kind == CallJump) && blk.next.RdTmp? then [OpIndirect(blk.next)] else [])
    + [OpFlush]
  }

  // ------------------------------------------------------------------ reference meaning

  /** The latest event since the last flush point, when it is a data read. */
  datatype Last = NoRead | JustRead(n: Inode, ea: Atom, sz: nat)

  datatype RefStep = RefStep(acts: seq<Action>, last: Last)

  function IrAct(cfg: Config, n: Inode): (a: Action)
    requires cfg.i1Line > 0
  {
    if !cfg.cacheSim then Count(n)
    else if Hierarchy.IsIrNoX(n.addr, n.len, cfg.i1Line, cfg.llLine) then FetchNoX(n) else FetchGen(n)
  }

  /** What an operation stands for: its action at once, except that a write completing a
      read-modify-write of the same place by the same instruction adds none. */
  function RefOp(cfg: Config, op: Op, cur: Inode, last: Last, env: Env): (r: RefStep)
    requires cfg.i1Line > 0
  {
    match op
    case OpIr(n) => RefStep([IrAct(cfg, n)], NoRead)
    case OpRead(ea, sz) =>
      if !cfg.cacheSim then RefStep([], last)
      else RefStep([Read(cur, Eval(ea, env), sz)], JustRead(cur, ea, sz))
    case OpWrite(ea, sz) =>
      if !cfg.cacheSim then RefStep([], last)
      else if last == JustRead(cur, ea, sz) then RefStep([], NoRead)
      else RefStep([Write(cur, Eval(ea, env), sz)], NoRead)
    case OpGuarded(ea, sz, g, isWrite) =>
      if !cfg.cacheSim then RefStep([], last)
      else if Eval(g, env) == 0 then RefStep([], NoRead)
      else RefStep([if isWrite then Write(cur, Eval(ea, env), sz) else Read(cur, Eval(ea, env), sz)], NoRead)
    case OpBranch(g, inverted) =>
      if !cfg.branchSim then RefStep([], last)
      else RefStep([Cond(cur, if (Eval(g, env) != 0) != inverted then 1 else 0)], NoRead)
    case OpIndirect(a) =>
      if !cfg.branchSim then RefStep([], last) else RefStep([Ind(cur, Eval(a, env))], NoRead)
    case OpFlush => RefStep([], NoRead)
  }

  function RefOps(cfg: Config, ops: seq<Op>, cur: Inode, last: Last, env: Env): (r: RefStep)
    requires cfg.i1Line > 0
    decreases |ops|
  {
    if ops == [] then RefStep([], last)
    else
      var first := RefOp(cfg, ops[0], cur, last, env);
      var rest := RefOps(cfg, ops[1..], cur, first.last, env);
      RefStep(first.acts + rest.acts, rest.last)
  }

  /** Index of the first instruction mark; what precedes it is copied unexamined. */
  function FirstMark(stmts: seq<Stmt>): (i: nat)
    ensures i <= |stmts|
    ensures i < |stmts| ==> stmts[i].IMark?
    ensures forall j :: 0 <= j < i ==> !stmts[j].IMark?
  {
    if stmts == [] || stmts[0].IMark? then 0 else 1 + FirstMark(stmts[1..])
  }

  /** Running the block from statement `i`, performing each statement's events at once. */
  function RunRef(cfg: Config, blk: Block, i: nat, cur: Inode, slot: nat, last: Last, env: Env, val: Values): (r: Run)
    requires cfg.i1Line > 0 && i <= |blk.stmts|
    decreases |blk.stmts| - i
  {
    if i == |blk.stmts| then Run(RefOps(cfg, EndOps(blk), cur, last, env).acts, None)
    else
      var st := blk.stmts[i];
      var active := FirstMark(blk.stmts) <= i;
      var cur' := NextInode(cfg, st, cur, slot);
      var slot' := if st.IMark? then slot + 1 else slot;
      var now := if active then RefOps(cfg, Ops(cfg, st, cur'), cur', last, env) else RefStep([], last);
      Then(now.acts,
           if Leaves(st, env) then Run([], Some(i))
           else RunRef(cfg, blk, i + 1, cur', slot', now.last, Assign(env, i, st, val), val))
  }
}
