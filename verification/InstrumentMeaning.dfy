/** What the events of a block are for, said of its statements alone: which of them fetch, load,
    store and branch, at which address, and for which instruction.  Running a block means
    performing these actions for each executed statement, in order. */
module InstrumentMeaning {
  import opened Arith
  import opened Options
  import opened Instrument
  import Hierarchy

  // ------------------------------------------------------------------ statements

  /** Does the statement, executed in `env`, read memory? */
  predicate Loads(st: Stmt, env: Env)
  {
    st.Load? || st.LoadLinked? || st.Cas? || (st.LoadG? && Eval(st.guard, env) != 0) ||
    (st.Dirty? && (st.fx == ReadFx || st.fx == ModifyFx))
  }

  /** Does it write memory? */
  predicate Stores(st: Stmt, env: Env)
  {
    st.Store? || st.StoreCond? || st.Cas? || (st.StoreG? && Eval(st.guard, env) != 0) ||
    (st.Dirty? && (st.fx == WriteFx || st.fx == ModifyFx))
  }

  /** Does it do both, to the same place? */
  predicate Modifies(st: Stmt)
  {
    st.Cas? || (st.Dirty? && st.fx == ModifyFx)
  }

  predicate HasData(st: Stmt)
  {
    !st.Plain? && !st.IMark? && !st.Exit?
  }

  /** How many bytes; what helper functions and compare-and-swap touch is cut to a line. */
  function DataSize(cfg: Config, st: Stmt): (n: nat)
    requires HasData(st)
  {
    if st.Dirty? then Min(st.size, cfg.minLine)
    else if st.Cas? && st.double then Min(2 * st.size, cfg.minLine)
    else if st.Cas? then Min(st.size, cfg.minLine)
    else st.size
  }

  /** An exit of the guest's own code. */
  predicate GuestExit(st: Stmt)
  {
    st.Exit? && (st.kind == Boring || st.kind == CallJump || st.kind == Ret)
  }

  /** Does control go elsewhere than to the instruction behind `n`?  If the exit is not taken
      control stays in the block; that is the way on unless the exit itself leads there. */
  predicate GoesElsewhere(st: Stmt, n: Inode, env: Env)
    requires st.Exit?
  {
    var next := (n.addr + n.len) % WORD;
    if Eval(st.guard, env) != 0 then st.dst != next else st.dst == next
  }

  // ------------------------------------------------------------------ positions in a block

  function MarksBefore(stmts: seq<Stmt>, i: nat): (n: nat)
    requires i <= |stmts|
  {
    if i == 0 then 0 else MarksBefore(stmts, i - 1) + if stmts[i-1].IMark? then 1 else 0
  }

  /** Is there an instruction mark at or before statement `i`?  Others are passed over. */
  predicate Examined(stmts: seq<Stmt>, i: nat)
    requires i < |stmts|
  {
    exists m :: 0 <= m <= i && stmts[m].IMark?
  }

  /** The instruction before statement `i`: that of the latest mark, marks being numbered from 0
      on; a length of 0 stands for the shortest instruction. */
  function RecordBefore(cfg: Config, stmts: seq<Stmt>, i: nat): (n: Inode)
    requires i <= |stmts|
  {
    if i == 0 then Inode(0, 0, 0)
    else if stmts[i-1].IMark? then
      Inode(MarksBefore(stmts, i - 1), stmts[i-1].addr, if stmts[i-1].len == 0 then cfg.minInstr else stmts[i-1].len)
    else RecordBefore(cfg, stmts, i - 1)
  }

  /** The instruction statement `i` belongs to; a mark begins its own. */
  function RecordAt(cfg: Config, stmts: seq<Stmt>, i: nat): (n: Inode)
    requires i < |stmts|
  {
    RecordBefore(cfg, stmts, i + 1)
  }

  /** A load and a store without conditions. */
  predicate PlainLoad(st: Stmt)
  {
    st.Load? || (st.Dirty? && st.fx == ReadFx)
  }

  predicate PlainStore(st: Stmt)
  {
    st.Store? || st.StoreCond? || (st.Dirty? && st.fx == WriteFx)
  }

  /** The load `j` and the store `i` are of the same place, with nothing between them. */
  predicate LoadedJustBefore(cfg: Config, stmts: seq<Stmt>, j: nat, i: nat)
    requires j < i < |stmts|
  {
    PlainLoad(stmts[j]) && PlainStore(stmts[i]) && stmts[j].ea == stmts[i].ea &&
    DataSize(cfg, stmts[j]) == DataSize(cfg, stmts[i]) && forall m :: j < m < i ==> stmts[m].Plain?
  }

  /** A store that changes what was just read: both together count as one read. */
  predicate Fused(cfg: Config, stmts: seq<Stmt>, i: nat)
    requires i < |stmts|
  {
    Modifies(stmts[i]) || exists j :: 0 <= j < i && LoadedJustBefore(cfg, stmts, j, i)
  }

  // ------------------------------------------------------------------ actions

  function FetchOf(cfg: Config, n: Inode): (a: Action)
    requires cfg.i1Line > 0
  {
    if !cfg.cacheSim then Count(n)
    else if Hierarchy.IsIrNoX(n.addr, n.len, cfg.i1Line, cfg.llLine) then FetchNoX(n) else FetchGen(n)
  }

  /** One element if the condition holds, and none otherwise. */
  function If<T>(c: bool, t: T): (s: seq<T>)
  {
    if c then [t] else []
  }

  /** The actions of one statement of the instruction `n`: a mark is a fetch; a load is a read
      and a store a write, unless it is fused with the read before it; an exit of guest code is
      a branch, taken if control goes elsewhere than to the next instruction. */
  function Actions(cfg: Config, st: Stmt, n: Inode, fused: bool, env: Env): (acts: seq<Action>)
    requires cfg.i1Line > 0
  {
    if st.IMark? then [FetchOf(cfg, n)]
    else if st.Exit? then
      If(cfg.branchSim && GuestExit(st), Cond(n, if GoesElsewhere(st, n, env) then 1 else 0))
    else if HasData(st) && cfg.cacheSim then
      var addr, size := Eval(st.ea, env), DataSize(cfg, st);
      If(Loads(st, env), Read(n, addr, size)) + If(Stores(st, env) && !fused, Write(n, addr, size))
    else []
  }

  function ActionsAt(cfg: Config, stmts: seq<Stmt>, i: nat, env: Env): (acts: seq<Action>)
    requires cfg.i1Line > 0 && i < |stmts|
  {
    if !Examined(stmts, i) then []
    else Actions(cfg, stmts[i], RecordAt(cfg, stmts, i), Fused(cfg, stmts, i), env)
  }

  /** At the end of a block: a jump or call to a computed address, but not a return. */
  function EndActions(cfg: Config, blk: Block, env: Env): (acts: seq<Action>)
  {
    If(cfg.branchSim && (blk.kind == Boring || blk.kind == CallJump) && blk.next.RdTmp?,
       Ind(RecordBefore(cfg, blk.stmts, |blk.stmts|), Eval(blk.next, env)))
  }

  /** What running a block from statement `i` means. */
  function Meaning(cfg: Config, blk: Block, i: nat, env: Env, val: Values): (r: Run)
    requires cfg.i1Line > 0 && i <= |blk.stmts|
    decreases |blk.stmts| - i
  {
    if i == |blk.stmts| then Run(EndActions(cfg, blk, env), None)
    else
      Then(ActionsAt(cfg, blk.stmts, i, env),
           if Leaves(blk.stmts[i], env) then Run([], Some(i))
           else Meaning(cfg, blk, i + 1, Assign(env, i, blk.stmts[i], val), val))
  }

  // ------------------------------------------------------------------ the reference run has this meaning

  /** The latest read since the last flush point, from the statements before `i`. */
  function LastAt(cfg: Config, stmts: seq<Stmt>, i: nat): (l: Last)
    requires i <= |stmts|
  {
    if i == 0 then NoRead
    else
      var st := stmts[i-1];
      if st.Plain? then LastAt(cfg, stmts, i - 1)
      else if cfg.cacheSim && PlainLoad(st) && Examined(stmts, i - 1) then
        JustRead(RecordAt(cfg, stmts, i - 1), st.ea, DataSize(cfg, st))
      else NoRead
  }

  predicate FusedWith(cfg: Config, st: Stmt, n: Inode, last: Last)
  {
    Modifies(st) || (PlainStore(st) && last == JustRead(n, st.ea, DataSize(cfg, st)))
  }

  function LastAfter(cfg: Config, st: Stmt, n: Inode, last: Last): (l: Last)
  {
    if st.Plain? then last
    else if cfg.cacheSim && PlainLoad(st) then JustRead(n, st.ea, DataSize(cfg, st))
    else NoRead
  }

  lemma {:induction false} OneOp(cfg: Config, op: Op, n: Inode, last: Last, env: Env)
    requires cfg.i1Line > 0
    ensures RefOps(cfg, [op], n, last, env) == RefOp(cfg, op, n, last, env)
  {
    assert [op][1..] == [];
    assert RefOps(cfg, [], n, RefOp(cfg, op, n, last, env).last, env).acts == [];
  }

  lemma {:induction false} TwoOps(cfg: Config, a: Op, b: Op, n: Inode, last: Last, env: Env)
    requires cfg.i1Line > 0
    ensures var first := RefOp(cfg, a, n, last, env);
            var second := RefOp(cfg, b, n, first.last, env);
            RefOps(cfg, [a, b], n, last, env) == RefStep(first.acts + second.acts, second.last)
  {
    hide RefOp;
    var first := RefOp(cfg, a, n, last, env);
    assert [a, b][1..] == [b];
    OneOp(cfg, b, n, first.last, env);
  }

  ghost predicate Means(cfg: Config, st: Stmt, n: Inode, last: Last, env: Env)
    requires cfg.i1Line > 0
  {
    RefOps(cfg, Ops(cfg, st, n), n, last, env) ==
    RefStep(Actions(cfg, st, n, FusedWith(cfg, st, n, last), env), LastAfter(cfg, st, n, last))
  }

  lemma {:induction false} SingleMeans(cfg: Config, st: Stmt, n: Inode, last: Last, env: Env)
    requires cfg.i1Line > 0 && (!cfg.cacheSim ==> last == NoRead)
    requires st.IMark? || st.StoreG? || st.LoadG? || PlainLoad(st) || PlainStore(st)
    ensures Means(cfg, st, n, last, env)
  {
    hide Hierarchy.IsIrNoX, RefOps;
    var op := Ops(cfg, st, n)[0];
    assert Ops(cfg, st, n) == [op];
    OneOp(cfg, op, n, last, env);
  }

  lemma {:induction false} PairMeans(cfg: Config, st: Stmt, n: Inode, last: Last, env: Env)
    requires cfg.i1Line > 0 && (!cfg.cacheSim ==> last == NoRead)
    requires Modifies(st) || st.LoadLinked?
    ensures Means(cfg, st, n, last, env)
  {
    hide RefOps;
    var ops := Ops(cfg, st, n);
    assert ops == [ops[0], ops[1]];
    TwoOps(cfg, ops[0], ops[1], n, last, env);
  }

  lemma {:induction false} ExitMeans(cfg: Config, st: Stmt, n: Inode, last: Last, env: Env)
    requires cfg.i1Line > 0 && (!cfg.cacheSim ==> last == NoRead)
    requires st.Exit?
    ensures Means(cfg, st, n, last, env)
  {
    hide RefOps;
    var ops := Ops(cfg, st, n);
    if st.kind == OtherJump {
      assert ops == [OpFlush];
      OneOp(cfg, OpFlush, n, last, env);
    } else {
      assert ops == [ops[0], OpFlush];
      TwoOps(cfg, ops[0], OpFlush, n, last, env);
    }
  }

  /** The events of one statement are its actions. */
  lemma {:induction false} StmtMeans(cfg: Config, st: Stmt, n: Inode, last: Last, env: Env)
    requires cfg.i1Line > 0 && (!cfg.cacheSim ==> last == NoRead)
    ensures Means(cfg, st, n, last, env)
  {
    if st.Plain? {
      assert Ops(cfg, st, n) == [];
    } else if st.Exit? {
      ExitMeans(cfg, st, n, last, env);
    } else if Modifies(st) || st.LoadLinked? {
      PairMeans(cfg, st, n, last, env);
    } else {
      SingleMeans(cfg, st, n, last, env);
    }
  }

  lemma {:induction false} ExaminedIff(stmts: seq<Stmt>, i: nat)
    requires i < |stmts|
    ensures Examined(stmts, i) <==> FirstMark(stmts) <= i
  {
    var m := FirstMark(stmts);
    assert m <= i ==> stmts[m].IMark?;
  }

  /** Nothing is read before the first mark, or without the cache simulation. */
  lemma {:induction false} NoReadYet(cfg: Config, stmts: seq<Stmt>, i: nat)
    requires i <= |stmts|
    requires !cfg.cacheSim || i == 0 || !Examined(stmts, i - 1)
    ensures LastAt(cfg, stmts, i) == NoRead
  {
    if i > 0 {
      assert i > 1 && Examined(stmts, i - 2) ==> Examined(stmts, i - 1);
      NoReadYet(cfg, stmts, i - 1);
    }
  }

  /** Statements of no interest change neither the latest read nor the instruction. */
  lemma {:induction false} AcrossPlain(cfg: Config, stmts: seq<Stmt>, k: nat, i: nat)
    requires k <= i <= |stmts|
    requires forall m :: k <= m < i ==> stmts[m].Plain?
    ensures LastAt(cfg, stmts, i) == LastAt(cfg, stmts, k)
    ensures RecordBefore(cfg, stmts, i) == RecordBefore(cfg, stmts, k)
    decreases i
  {
    if k < i {
      AcrossPlain(cfg, stmts, k, i - 1);
    }
  }

  /** Where the latest read comes from. */
  lemma {:induction false} LastComesFrom(cfg: Config, stmts: seq<Stmt>, i: nat) returns (j: nat)
    requires i <= |stmts| && LastAt(cfg, stmts, i).JustRead?
    ensures j < i && PlainLoad(stmts[j]) && forall m :: j < m < i ==> stmts[m].Plain?
    ensures LastAt(cfg, stmts, i) == JustRead(RecordAt(cfg, stmts, j), stmts[j].ea, DataSize(cfg, stmts[j]))
  {
    j := i - 1;
    if stmts[j].Plain? {
      j := LastComesFrom(cfg, stmts, i - 1);
    }
  }

  lemma {:induction false} LoadedThenFused(cfg: Config, stmts: seq<Stmt>, j: nat, i: nat)
    requires j < i < |stmts| && cfg.cacheSim && Examined(stmts, i) && LoadedJustBefore(cfg, stmts, j, i)
    ensures FusedWith(cfg, stmts[i], RecordAt(cfg, stmts, i), LastAt(cfg, stmts, i))
  {
    AcrossPlain(cfg, stmts, j + 1, i);
    assert Examined(stmts, j) by {
      var m :| 0 <= m <= i && stmts[m].IMark?;
      assert m <= j;
    }
  }

  lemma {:induction false} FusedIff(cfg: Config, stmts: seq<Stmt>, i: nat)
    requires i < |stmts| && cfg.cacheSim && Examined(stmts, i)
    ensures FusedWith(cfg, stmts[i], RecordAt(cfg, stmts, i), LastAt(cfg, stmts, i)) <==> Fused(cfg, stmts, i)
  {
    forall j | 0 <= j < i && LoadedJustBefore(cfg, stmts, j, i)
      ensures FusedWith(cfg, stmts[i], RecordAt(cfg, stmts, i), LastAt(cfg, stmts, i))
    {
      LoadedThenFused(cfg, stmts, j, i);
    }
    if !Modifies(stmts[i]) && FusedWith(cfg, stmts[i], RecordAt(cfg, stmts, i), LastAt(cfg, stmts, i)) {
      var j := LastComesFrom(cfg, stmts, i);
      assert LoadedJustBefore(cfg, stmts, j, i);
    }
  }

  /** What the reference run does for one statement. */
  lemma {:induction false} StepMeans(cfg: Config, stmts: seq<Stmt>, i: nat, env: Env)
    requires cfg.i1Line > 0 && i < |stmts|
    ensures NextInode(cfg, stmts[i], RecordBefore(cfg, stmts, i), MarksBefore(stmts, i)) == RecordAt(cfg, stmts, i)
    ensures Examined(stmts, i) ==>
              RefOps(cfg, Ops(cfg, stmts[i], RecordAt(cfg, stmts, i)), RecordAt(cfg, stmts, i),
                     LastAt(cfg, stmts, i), env)
              == RefStep(ActionsAt(cfg, stmts, i, env), LastAt(cfg, stmts, i + 1))
    ensures !Examined(stmts, i) ==>
              ActionsAt(cfg, stmts, i, env) == [] && LastAt(cfg, stmts, i + 1) == LastAt(cfg, stmts, i)
  {
    var n, last := RecordAt(cfg, stmts, i), LastAt(cfg, stmts, i);
    if Examined(stmts, i) {
      if cfg.cacheSim {
        FusedIff(cfg, stmts, i);
      } else {
        NoReadYet(cfg, stmts, i);
      }
      StmtMeans(cfg, stmts[i], n, last, env);
      hide RefOps, Ops, Fused, FusedWith, RecordAt, RecordBefore;
      assert LastAt(cfg, stmts, i + 1) == LastAfter(cfg, stmts[i], n, last);
    } else {
      NoReadYet(cfg, stmts, i);
      NoReadYet(cfg, stmts, i + 1);
    }
  }

  lemma {:induction false} EndMeans(cfg: Config, blk: Block, last: Last, env: Env)
    requires cfg.i1Line > 0
    ensures RefOps(cfg, EndOps(blk), RecordBefore(cfg, blk.stmts, |blk.stmts|), last, env).acts == EndActions(cfg, blk, env)
  {
    var n := RecordBefore(cfg, blk.stmts, |blk.stmts|);
    var ops := EndOps(blk);
    hide RefOps, RecordBefore;
    if |ops| == 2 {
      assert ops == [ops[0], OpFlush];
      TwoOps(cfg, ops[0], OpFlush, n, last, env);
    } else {
      assert ops == [OpFlush];
      OneOp(cfg, OpFlush, n, last, env);
    }
  }

  lemma {:induction false} RefUnfold(cfg: Config, blk: Block, i: nat, cur: Inode, slot: nat, last: Last, env: Env, val: Values,
                                     cur': Inode, slot': nat, now: RefStep)
    requires cfg.i1Line > 0 && i < |blk.stmts|
    requires cur' == NextInode(cfg, blk.stmts[i], cur, slot)
    requires slot' == if blk.stmts[i].IMark? then slot + 1 else slot
    requires now == if FirstMark(blk.stmts) <= i then RefOps(cfg, Ops(cfg, blk.stmts[i], cur'), cur', last, env)
                    else RefStep([], last)
    ensures RunRef(cfg, blk, i, cur, slot, last, env, val)
            == Then(now.acts,
                    if Leaves(blk.stmts[i], env) then Run([], Some(i))
                    else RunRef(cfg, blk, i + 1, cur', slot', now.last, Assign(env, i, blk.stmts[i], val), val))
  {
    hide RefOps, Ops, NextInode, FirstMark, Then, Leaves, Assign;
  }

  /** The reference run, one statement on. */
  lemma {:induction false} RunStep(cfg: Config, blk: Block, i: nat, env: Env, val: Values)
    requires cfg.i1Line > 0 && i < |blk.stmts|
    ensures RunRef(cfg, blk, i, RecordBefore(cfg, blk.stmts, i), MarksBefore(blk.stmts, i),
                   LastAt(cfg, blk.stmts, i), env, val)
            == Then(ActionsAt(cfg, blk.stmts, i, env),
                    if Leaves(blk.stmts[i], env) then Run([], Some(i))
                    else RunRef(cfg, blk, i + 1, RecordBefore(cfg, blk.stmts, i + 1), MarksBefore(blk.stmts, i + 1),
                                LastAt(cfg, blk.stmts, i + 1), Assign(env, i, blk.stmts[i], val), val))
  {
    var cur, slot, last := RecordBefore(cfg, blk.stmts, i), MarksBefore(blk.stmts, i), LastAt(cfg, blk.stmts, i);
    var slot' := if blk.stmts[i].IMark? then slot + 1 else slot;
    assert slot' == MarksBefore(blk.stmts, i + 1);
    hide *;
    StepMeans(cfg, blk.stmts, i, env);
    ExaminedIff(blk.stmts, i);
    RefUnfold(cfg, blk, i, cur, slot, last, env, val,
              RecordAt(cfg, blk.stmts, i), slot', RefStep(ActionsAt(cfg, blk.stmts, i, env), LastAt(cfg, blk.stmts, i + 1)));
  }

  /** The reference run of a block performs exactly the actions its statements mean. */
  lemma {:induction false} RunMeans(cfg: Config, blk: Block, i: nat, env: Env, val: Values)
    requires cfg.i1Line > 0 && i <= |blk.stmts|
    ensures RunRef(cfg, blk, i, RecordBefore(cfg, blk.stmts, i), MarksBefore(blk.stmts, i),
                   LastAt(cfg, blk.stmts, i), env, val) == Meaning(cfg, blk, i, env, val)
    decreases |blk.stmts| - i
  {
    if i == |blk.stmts| {
      EndMeans(cfg, blk, LastAt(cfg, blk.stmts, i), env);
    } else {
      hide RunRef, ActionsAt, LastAt, Then, Leaves, Assign, RecordBefore, MarksBefore;
      RunStep(cfg, blk, i, env, val);
      RunMeans(cfg, blk, i + 1, Assign(env, i, blk.stmts[i], val), val);
    }
  }
}
