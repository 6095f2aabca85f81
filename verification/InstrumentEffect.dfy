/** What running an instrumented block leaves in Cachegrind's simulators and per-line
    counters.  `Perform` is the effect of one action of a logging helper; the theorem
    lifts the equality of actions to the whole simulation state, with every instruction
    fetch taken in its general form. */
module InstrumentEffect {
  import opened Instrument
  import opened InstrumentMeaning
  import opened InstrumentPass
  import opened Hierarchy
  import CacheSim
  import BP = BranchPred

  datatype Counts = Counts(a: nat, m1: nat, mL: nat)
  datatype BranchCounts = BranchCounts(b: nat, mp: nat)
  datatype LineCC = LineCC(ir: Counts, dr: Counts, dw: Counts, bc: BranchCounts, bi: BranchCounts)

  const ZERO_LINE := LineCC(Counts(0, 0, 0), Counts(0, 0, 0), Counts(0, 0, 0), BranchCounts(0, 0), BranchCounts(0, 0))

  /** Cache shapes, instruction alignment, and the source line of each address. */
  datatype Setup = Setup(i1: Geometry, d1: Geometry, ll: Geometry, align: nat, lineOf: nat -> nat)
  {
    ghost predicate Usable() { i1.Usable() && d1.Usable() && ll.Usable() && align > 0 }
  }

  /** Histories of the three caches, both predictors, the counters, and whether the
      simulator is still running (it gives up on accesses it cannot handle). */
  datatype Sim = Sim(i1: seq<nat>, d1: seq<nat>, ll: seq<nat>, bp: BP.Predictor, btac: seq<nat>,
                     lines: map<nat, LineCC>, running: bool)
  {
    ghost predicate Valid() { bp.Valid() && |btac| == BP.N_BTAC }
  }

  function LineAt(sim: Sim, line: nat): (cc: LineCC)
  {
    if line in sim.lines then sim.lines[line] else ZERO_LINE
  }

  function Tally(c: Counts, o: Outcome): (r: Counts)
  {
    Counts(c.a + 1, c.m1 + (if o.missL1 then 1 else 0), c.mL + (if o.missLL then 1 else 0))
  }

  function Fetched(w: Setup, sim: Sim, n: Inode, o: Outcome): (r: Sim)
  {
    var line := w.lineOf(n.addr);
    var cc := LineAt(sim, line);
    sim.(i1 := o.levels.l1, ll := o.levels.ll, running := o.ok,
         lines := sim.lines[line := cc.(ir := Tally(cc.ir, o))])
  }

  /** A fetch known to stay within one line: one block lookup per level. */
  function FetchOneLine(w: Setup, sim: Sim, n: Inode): (o: Outcome)
    requires w.i1.Usable() && w.ll.Usable()
  {
    var b := n.addr / w.i1.lineSize;
    if CacheSim.BlockMisses(sim.i1, b, w.i1.sets, w.i1.assoc) then
      Outcome(Levels(sim.i1 + [b], sim.ll + [b]), true,
              CacheSim.BlockMisses(sim.ll, b, w.ll.sets, w.ll.assoc), true)
    else Outcome(Levels(sim.i1 + [b], sim.ll), false, false, true)
  }

  function Perform(w: Setup, sim: Sim, act: Action): (r: Sim)
    requires w.Usable() && sim.Valid()
    ensures r.Valid()
  {
    var line := w.lineOf(act.n.addr);
    var cc := LineAt(sim, line);
    if !sim.running then sim
    else match act
      case Count(_) => sim.(lines := sim.lines[line := cc.(ir := cc.ir.(a := cc.ir.a + 1))])
      case FetchNoX(n) => Fetched(w, sim, n, FetchOneLine(w, sim, n))
      case FetchGen(n) => Fetched(w, sim, n, Access(Levels(sim.i1, sim.ll), w.i1, w.ll, n.addr, n.len))
      case Read(_, addr, size) =>
        var o := Access(Levels(sim.d1, sim.ll), w.d1, w.ll, addr, size);
        sim.(d1 := o.levels.l1, ll := o.levels.ll, running := o.ok,
             lines := sim.lines[line := cc.(dr := Tally(cc.dr, o))])
      case Write(_, addr, size) =>
        var o := Access(Levels(sim.d1, sim.ll), w.d1, w.ll, addr, size);
        sim.(d1 := o.levels.l1, ll := o.levels.ll, running := o.ok,
             lines := sim.lines[line := cc.(dw := Tally(cc.dw, o))])
      case Cond(n, taken) =>
        var mp := if BP.Mispredicts(sim.bp, n.addr, w.align, taken > 0) then 1 else 0;
        sim.(bp := BP.Next(sim.bp, n.addr, w.align, taken > 0),
             lines := sim.lines[line := cc.(bc := BranchCounts(cc.bc.b + 1, cc.bc.mp + mp))])
      case Ind(n, dst) =>
        var i := BP.BtacIndex(n.addr, w.align);
        var mp := if sim.btac[i] != dst then 1 else 0;
        sim.(btac := sim.btac[i := dst],
             lines := sim.lines[line := cc.(bi := BranchCounts(cc.bi.b + 1, cc.bi.mp + mp))])
  }

  function PerformAll(w: Setup, sim: Sim, acts: seq<Action>): (r: Sim)
    requires w.Usable() && sim.Valid()
    ensures r.Valid()
    decreases |acts|
  {
    if acts == [] then sim else PerformAll(w, Perform(w, sim, acts[0]), acts[1..])
  }

  /** The action in its general form. */
  function General(act: Action): (r: Action)
  {
    if act.FetchNoX? then FetchGen(act.n) else act
  }

  function GeneralAll(acts: seq<Action>): (r: seq<Action>)
    ensures |r| == |acts|
  {
    if acts == [] then [] else [General(acts[0])] + GeneralAll(acts[1..])
  }

  /** The one-line shortcut is used only where the fetch stays within one line. */
  predicate ShortcutOk(cfg: Config, act: Action)
    requires cfg.i1Line > 0
  {
    act.FetchNoX? ==> IsIrNoX(act.n.addr, act.n.len, cfg.i1Line, cfg.llLine)
  }

  lemma {:induction false} ActionShortcuts(cfg: Config, stmts: seq<Stmt>, i: nat, env: Env, act: Action)
    requires cfg.i1Line > 0 && i < |stmts| && act in ActionsAt(cfg, stmts, i, env)
    ensures ShortcutOk(cfg, act)
  {
    hide IsIrNoX, Fused, RecordAt, Loads, Stores, GoesElsewhere;
  }

  lemma {:induction false} MeaningShortcuts(cfg: Config, blk: Block, i: nat, env: Env, val: Values, act: Action)
    requires cfg.i1Line > 0 && i <= |blk.stmts|
    requires act in Meaning(cfg, blk, i, env, val).acts
    ensures ShortcutOk(cfg, act)
    decreases |blk.stmts| - i
  {
    hide ActionsAt, RecordBefore, IsIrNoX;
    if i < |blk.stmts| {
      if act in ActionsAt(cfg, blk.stmts, i, env) {
        ActionShortcuts(cfg, blk.stmts, i, env, act);
      } else {
        MeaningShortcuts(cfg, blk, i + 1, Assign(env, i, blk.stmts[i], val), val, act);
      }
    }
  }

  lemma {:induction false} ShortcutIsGeneral(cfg: Config, w: Setup, sim: Sim, act: Action)
    requires w.Usable() && sim.Valid() && cfg.i1Line == w.i1.lineSize && cfg.llLine == w.ll.lineSize
    requires ShortcutOk(cfg, act)
    ensures Perform(w, sim, act) == Perform(w, sim, General(act))
  {
    if act.FetchNoX? {
      NoXAccess(Levels(sim.i1, sim.ll), w.i1, w.ll, act.n.addr, act.n.len);
    }
  }

  lemma {:induction false} ShortcutsAreGeneral(cfg: Config, w: Setup, sim: Sim, acts: seq<Action>)
    requires w.Usable() && sim.Valid() && cfg.i1Line == w.i1.lineSize && cfg.llLine == w.ll.lineSize
    requires forall j :: 0 <= j < |acts| ==> ShortcutOk(cfg, acts[j])
    ensures PerformAll(w, sim, acts) == PerformAll(w, sim, GeneralAll(acts))
    decreases |acts|
  {
    if acts != [] {
      ShortcutIsGeneral(cfg, w, sim, acts[0]);
      ShortcutsAreGeneral(cfg, w, Perform(w, sim, acts[0]), acts[1..]);
      assert GeneralAll(acts)[1..] == GeneralAll(acts[1..]);
    }
  }

  /** Running the instrumented block, whatever the queue capacity, leaves caches,
      predictors and every line's counters as if what each executed statement means had
      been simulated one at a time, in order and in general form. */
  lemma {:induction false} SimulationAsIfOneAtATime(cfg: Config, cap: nat, blk: Block, env: Env, val: Values, w: Setup, sim: Sim)
    requires cfg.i1Line > 0 && 1 <= cap && WellFormed(blk, 0, env.Keys) && Below(env, blk.tmps)
    requires w.Usable() && sim.Valid() && cfg.i1Line == w.i1.lineSize && cfg.llLine == w.ll.lineSize
    ensures PerformAll(w, sim, RunOut(Traverse(cfg, cap, blk, Start(blk)), env, val).acts) ==
            PerformAll(w, sim, GeneralAll(Meaning(cfg, blk, 0, env, val).acts))
  {
    InstrumentedRunsAlike(cfg, cap, blk, env, val);
    var acts := Meaning(cfg, blk, 0, env, val).acts;
    forall j | 0 <= j < |acts| ensures ShortcutOk(cfg, acts[j]) {
      MeaningShortcuts(cfg, blk, 0, env, val, acts[j]);
    }
    ShortcutsAreGeneral(cfg, w, sim, acts);
  }
}
