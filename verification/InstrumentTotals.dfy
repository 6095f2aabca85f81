/** What every counter of every source line holds after a program ran: a number of actions of
    its executed statements, told from the actions before them. */
module InstrumentTotals {
  import opened Options
  import opened Instrument
  import opened InstrumentMeaning
  import opened InstrumentPass
  import opened InstrumentEffect
  import opened Hierarchy
  import CacheSim
  import BP = BranchPred

  // ------------------------------------------------------------------ what came before

  predicate Fetches(act: Action)
  {
    act.FetchNoX? || act.FetchGen?
  }

  predicate IsAccess(act: Action)
  {
    Fetches(act) || act.Read? || act.Write?
  }

  function RefOf(act: Action): (r: Ref)
    requires IsAccess(act)
  {
    if Fetches(act) then Ref(false, act.n.addr, act.n.len) else Ref(true, act.addr, act.size)
  }

  /** The accesses, the conditional branches and the indirect ones among some actions. */
  function RefsOf(acts: seq<Action>): (rs: seq<Ref>)
  {
    if acts == [] then []
    else
      var rest, act := RefsOf(acts[..|acts|-1]), acts[|acts|-1];
      if IsAccess(act) then rest + [RefOf(act)] else rest
  }

  function BranchesOf(acts: seq<Action>): (bs: seq<BP.Branch>)
  {
    if acts == [] then []
    else
      var rest, act := BranchesOf(acts[..|acts|-1]), acts[|acts|-1];
      if act.Cond? then rest + [BP.Branch(act.n.addr, act.taken > 0)] else rest
  }

  function JumpsOf(acts: seq<Action>): (js: seq<BP.Jump>)
  {
    if acts == [] then []
    else
      var rest, act := JumpsOf(acts[..|acts|-1]), acts[|acts|-1];
      if act.Ind? then rest + [BP.Jump(act.n.addr, act.dst)] else rest
  }

  function ShapeOf(w: Setup): (g: Shape)
  {
    Shape(w.i1, w.d1, w.ll)
  }

  // ------------------------------------------------------------------ the counters of a line

  datatype Counter =
    | Ir | IrMiss1 | IrMissLast
    | Dr | DrMiss1 | DrMissLast
    | Dw | DwMiss1 | DwMissLast
    | Bc | BcMispredicted
    | Bi | BiMispredicted

  function Cell(cc: LineCC, c: Counter): (n: nat)
  {
    match c
    case Ir => cc.ir.a
    case IrMiss1 => cc.ir.m1
    case IrMissLast => cc.ir.mL
    case Dr => cc.dr.a
    case DrMiss1 => cc.dr.m1
    case DrMissLast => cc.dr.mL
    case Dw => cc.dw.a
    case DwMiss1 => cc.dw.m1
    case DwMissLast => cc.dw.mL
    case Bc => cc.bc.b
    case BcMispredicted => cc.bc.mp
    case Bi => cc.bi.b
    case BiMispredicted => cc.bi.mp
  }

  ghost predicate Misses1(w: Setup, before: seq<Action>, act: Action)
    requires w.Usable() && IsAccess(act)
  {
    MissesFirst(ShapeOf(w), RefsOf(before), RefOf(act))
  }

  ghost predicate MissesL(w: Setup, before: seq<Action>, act: Action)
    requires w.Usable() && IsAccess(act)
  {
    MissesLast(ShapeOf(w), RefsOf(before), RefOf(act))
  }

  /** Does an action show in a counter, after the actions before it? */
  ghost predicate Shows(w: Setup, c: Counter, before: seq<Action>, act: Action)
    requires w.Usable()
  {
    match c
    case Ir => Fetches(act) || act.Count?
    case IrMiss1 => Fetches(act) && Misses1(w, before, act)
    case IrMissLast => Fetches(act) && MissesL(w, before, act)
    case Dr => act.Read?
    case DrMiss1 => act.Read? && Misses1(w, before, act)
    case DrMissLast => act.Read? && MissesL(w, before, act)
    case Dw => act.Write?
    case DwMiss1 => act.Write? && Misses1(w, before, act)
    case DwMissLast => act.Write? && MissesL(w, before, act)
    case Bc => act.Cond?
    case BcMispredicted =>
      act.Cond? &&
      var h := BranchesOf(before + [act]);
      |h| > 0 && (BP.Level(h, |h| - 1, |h| - 1, w.align) >= 2) != (act.taken > 0)
    case Bi => act.Ind?
    case BiMispredicted => act.Ind? && BP.LastTarget(JumpsOf(before), act.n.addr, w.align) != act.dst
  }

  /** How many actions show in a counter of a line. */
  ghost function Number(w: Setup, c: Counter, line: nat, acts: seq<Action>): (n: nat)
    requires w.Usable()
  {
    if acts == [] then 0
    else
      var before, act := acts[..|acts|-1], acts[|acts|-1];
      Number(w, c, line, before) + if w.lineOf(act.n.addr) == line && Shows(w, c, before, act) then 1 else 0
  }

  /** The simulator gives up on an access that reaches a third line of the cache it goes to. */
  ghost predicate GivesUp(w: Setup, before: seq<Action>, act: Action)
    requires w.Usable()
  {
    IsAccess(act) &&
    var r := RefOf(act);
    CacheSim.Blocks(r.addr, r.size, (if Misses1(w, before, act) then w.ll else First(ShapeOf(w), r.data)).lineSize) == []
  }

  ghost predicate NeverGivesUp(w: Setup, acts: seq<Action>)
    requires w.Usable()
  {
    forall k :: 0 <= k < |acts| ==> !GivesUp(w, acts[..k], acts[k])
  }

  // ------------------------------------------------------------------ one action

  const FRESH := Sim([], [], [], BP.Cleared(), BP.Targets([], 1), map[], true)

  /** The simulators are where the actions so far have taken them. */
  ghost predicate StateIs(w: Setup, acts: seq<Action>, s: Sim)
    requires w.Usable()
  {
    s.running && Caches(s.i1, s.d1, s.ll) == HistoriesAfter(ShapeOf(w), RefsOf(acts)) &&
    s.bp == BP.After(BranchesOf(acts), w.align) && s.btac == BP.Targets(JumpsOf(acts), w.align)
  }

  predicate Fits(cfg: Config, w: Setup)
  {
    cfg.i1Line > 0 && cfg.i1Line == w.i1.lineSize && cfg.llLine == w.ll.lineSize
  }

  lemma {:induction false} OneMore(before: seq<Action>, act: Action)
    ensures RefsOf(before + [act]) == if IsAccess(act) then RefsOf(before) + [RefOf(act)] else RefsOf(before)
    ensures BranchesOf(before + [act]) ==
            if act.Cond? then BranchesOf(before) + [BP.Branch(act.n.addr, act.taken > 0)] else BranchesOf(before)
    ensures JumpsOf(before + [act]) == if act.Ind? then JumpsOf(before) + [BP.Jump(act.n.addr, act.dst)] else JumpsOf(before)
  {
    var more := before + [act];
    assert more[..|more|-1] == before && more[|more|-1] == act;
  }

  /** What the caches make of an access. */
  lemma {:induction false} AccessOutcome(w: Setup, before: seq<Action>, act: Action, s: Sim)
    requires w.Usable() && StateIs(w, before, s) && IsAccess(act)
    ensures var r := RefOf(act);
            var o := Access(Levels(if r.data then s.d1 else s.i1, s.ll), First(ShapeOf(w), r.data), w.ll, r.addr, r.size);
            o == OutcomeOf(HistoriesAfter(ShapeOf(w), RefsOf(before)), ShapeOf(w), r) &&
            o.missL1 == Misses1(w, before, act) && o.missLL == MissesL(w, before, act) &&
            o.ok == !GivesUp(w, before, act) &&
            HistoriesAfter(ShapeOf(w), RefsOf(before + [act])) ==
            if r.data then Caches(s.i1, o.levels.l1, o.levels.ll) else Caches(o.levels.l1, s.d1, o.levels.ll)
  {
    var g, rs, r := ShapeOf(w), RefsOf(before), RefOf(act);
    MissesAre(g, rs, r);
    OneMore(before, act);
    assert (rs + [r])[..|rs|] == rs && (rs + [r])[|rs|] == r;
    hide CacheSim.RefMisses, CacheSim.Blocks, RefsOf, MissesFirst, MissesLast, LastLevelLines, LinesOf;
  }

  lemma {:induction false} BranchOutcome(w: Setup, before: seq<Action>, act: Action, s: Sim)
    requires w.Usable() && StateIs(w, before, s) && act.Cond?
    ensures BP.Mispredicts(s.bp, act.n.addr, w.align, act.taken > 0) == Shows(w, BcMispredicted, before, act)
    ensures BP.Next(s.bp, act.n.addr, w.align, act.taken > 0) == BP.After(BranchesOf(before + [act]), w.align)
  {
    hide BP.After, BP.Level, BP.Mispredicts, BP.Next, BP.Targets, BranchesOf, JumpsOf, RefsOf, HistoriesAfter;
    var h := BranchesOf(before);
    OneMore(before, act);
    BP.AfterOneMore(h, act.n.addr, act.taken > 0, w.align);
    BP.MispredictedIff(h + [BP.Branch(act.n.addr, act.taken > 0)], |h|, w.align);
  }

  lemma {:induction false} JumpOutcome(w: Setup, before: seq<Action>, act: Action, s: Sim)
    requires w.Usable() && StateIs(w, before, s) && act.Ind?
    ensures var i := BP.BtacIndex(act.n.addr, w.align);
            |s.btac| == BP.N_BTAC && (s.btac[i] != act.dst) == Shows(w, BiMispredicted, before, act) &&
            s.btac[i := act.dst] == BP.Targets(JumpsOf(before + [act]), w.align)
  {
    var js := JumpsOf(before);
    OneMore(before, act);
    assert (js + [BP.Jump(act.n.addr, act.dst)])[..|js|] == js;
    BP.TargetIsLast(js, act.n.addr, w.align);
  }

  /** An action moves the simulators on, or makes them give up. */
  lemma {:induction false} ActionState(w: Setup, before: seq<Action>, act: Action, s: Sim)
    requires w.Usable() && StateIs(w, before, s) && s.Valid() && !act.FetchNoX?
    ensures Perform(w, s, act).running == !GivesUp(w, before, act)
    ensures !GivesUp(w, before, act) ==> StateIs(w, before + [act], Perform(w, s, act))
  {
    OneMore(before, act);
    hide CacheSim.RefMisses, CacheSim.Blocks, RefsOf, BranchesOf, JumpsOf, Access, HistoriesAfter, BP.After, BP.Next,
         BP.Targets, BP.Mispredicts, GivesUp, BP.BtacIndex;
    if IsAccess(act) {
      AccessOutcome(w, before, act, s);
    } else {
      assert !GivesUp(w, before, act) by { NoAccess(w, before, act); }
      if act.Cond? { BranchOutcome(w, before, act, s); }
      if act.Ind? { JumpOutcome(w, before, act, s); }
    }
  }

  lemma {:induction false} NoAccess(w: Setup, before: seq<Action>, act: Action)
    requires w.Usable() && !IsAccess(act)
    ensures !GivesUp(w, before, act)
  {
  }

  lemma {:induction false} AccessCounts(w: Setup, before: seq<Action>, act: Action, s: Sim, line: nat, c: Counter)
    requires w.Usable() && StateIs(w, before, s) && s.Valid() && (act.FetchGen? || act.Read? || act.Write?)
    ensures Cell(LineAt(Perform(w, s, act), line), c) ==
            Cell(LineAt(s, line), c) + if w.lineOf(act.n.addr) == line && Shows(w, c, before, act) then 1 else 0
  {
    hide CacheSim.RefMisses, CacheSim.Blocks, RefsOf, BranchesOf, JumpsOf, Access, HistoriesAfter, BP.After, BP.Next,
         BP.Targets, BP.Mispredicts, GivesUp, BP.Level, BP.LastTarget, StateIs, BP.BtacIndex, Misses1, MissesL;
    assert s.running by { StillRunning(w, before, s); }
    AccessOutcome(w, before, act, s);
  }

  lemma {:induction false} OtherCounts(w: Setup, before: seq<Action>, act: Action, s: Sim, line: nat, c: Counter)
    requires w.Usable() && StateIs(w, before, s) && s.Valid() && !IsAccess(act)
    ensures Cell(LineAt(Perform(w, s, act), line), c) ==
            Cell(LineAt(s, line), c) + if w.lineOf(act.n.addr) == line && Shows(w, c, before, act) then 1 else 0
  {
    hide CacheSim.RefMisses, CacheSim.Blocks, RefsOf, BranchesOf, JumpsOf, Access, HistoriesAfter, BP.After, BP.Next,
         BP.Targets, BP.Mispredicts, GivesUp, BP.BtacIndex, Misses1, MissesL;
    if act.Cond? {
      BranchOutcome(w, before, act, s);
    } else if act.Ind? {
      JumpOutcome(w, before, act, s);
    }
  }

  lemma {:induction false} StillRunning(w: Setup, before: seq<Action>, s: Sim)
    requires w.Usable() && StateIs(w, before, s)
    ensures s.running
  {
  }

  /** An action adds one to exactly the counters it shows in, of its own line. */
  lemma {:induction false} ActionCounts(w: Setup, before: seq<Action>, act: Action, s: Sim, line: nat, c: Counter)
    requires w.Usable() && StateIs(w, before, s) && s.Valid() && !act.FetchNoX?
    ensures Cell(LineAt(Perform(w, s, act), line), c) ==
            Cell(LineAt(s, line), c) + if w.lineOf(act.n.addr) == line && Shows(w, c, before, act) then 1 else 0
  {
    hide Cell, LineAt, Perform, Shows, StateIs;
    if IsAccess(act) { AccessCounts(w, before, act, s, line, c); } else { OtherCounts(w, before, act, s, line, c); }
  }

  // ------------------------------------------------------------------ whole runs

  lemma {:induction false} PerformLast(w: Setup, s: Sim, acts: seq<Action>)
    requires w.Usable() && s.Valid() && acts != []
    ensures var n := |acts| - 1;
            PerformAll(w, s, acts) == Perform(w, PerformAll(w, s, acts[..n]), acts[n])
    decreases |acts|
  {
    hide Perform;
    var n := |acts| - 1;
    if n > 0 {
      PerformLast(w, Perform(w, s, acts[0]), acts[1..]);
      assert acts[..n][1..] == acts[1..][..n-1] && acts[..n][0] == acts[0];
    }
  }

  /** A shortcut shows and gives up as the general fetch does. */
  lemma {:induction false} GeneralShows(w: Setup, before: seq<Action>, act: Action)
    requires w.Usable()
    ensures forall c :: Shows(w, c, before, act) == Shows(w, c, before, General(act))
    ensures GivesUp(w, before, act) == GivesUp(w, before, General(act))
    ensures forall s :: StateIs(w, before + [act], s) == StateIs(w, before + [General(act)], s)
  {
    OneMore(before, act);
    OneMore(before, General(act));
    hide RefsOf, BranchesOf, JumpsOf, HistoriesAfter, BP.After, BP.Targets, BP.Level, BP.LastTarget, MissesFirst, MissesLast;
  }

  /** One more action of a run. */
  lemma {:induction false} ActionStep(cfg: Config, w: Setup, before: seq<Action>, act: Action, s: Sim,
                                      line: nat, c: Counter)
    requires w.Usable() && Fits(cfg, w) && ShortcutOk(cfg, act) && StateIs(w, before, s) && s.Valid()
    ensures Perform(w, s, act).running == !GivesUp(w, before, act)
    ensures !GivesUp(w, before, act) ==> StateIs(w, before + [act], Perform(w, s, act))
    ensures Cell(LineAt(Perform(w, s, act), line), c) ==
            Cell(LineAt(s, line), c) + if w.lineOf(act.n.addr) == line && Shows(w, c, before, act) then 1 else 0
  {
    hide GivesUp, StateIs, Shows, Perform, Cell, LineAt;
    ShortcutIsGeneral(cfg, w, s, act);
    GeneralShows(w, before, act);
    ActionState(w, before, General(act), s);
    ActionCounts(w, before, General(act), s, line, c);
  }

  lemma {:induction false} FreshState(w: Setup)
    requires w.Usable()
    ensures FRESH.Valid() && StateIs(w, [], FRESH)
  {
  }

  lemma {:induction false} NoTotals(w: Setup, line: nat, c: Counter)
    requires w.Usable()
    ensures FRESH.Valid() && PerformAll(w, FRESH, []) == FRESH
    ensures Cell(LineAt(FRESH, line), c) == Number(w, c, line, []) == 0
  {
    FreshState(w);
    hide BP.Targets, BP.Cleared;
    assert LineAt(FRESH, line) == ZERO_LINE;
  }

  /** A run of actions, none of which the simulator gives up on. */
  lemma {:induction false} RunTotals(cfg: Config, w: Setup, acts: seq<Action>, line: nat, c: Counter)
    requires w.Usable() && Fits(cfg, w) && NeverGivesUp(w, acts)
    requires forall k :: 0 <= k < |acts| ==> ShortcutOk(cfg, acts[k])
    ensures FRESH.Valid() && StateIs(w, acts, PerformAll(w, FRESH, acts))
    ensures Cell(LineAt(PerformAll(w, FRESH, acts), line), c) == Number(w, c, line, acts)
  {
    hide GivesUp, NeverGivesUp, PerformAll, StateIs, Shows, Perform, Cell, LineAt, ShortcutOk, Fits, BP.Cleared, BP.Targets;
    FreshState(w);
    NoTotals(w, line, c);
    if acts != [] {
      var n := |acts| - 1;
      var before, act := acts[..n], acts[n];
      NeverSplit(w, acts);
      RunTotals(cfg, w, before, line, c);
      PerformLast(w, FRESH, acts);
      ActionStep(cfg, w, before, act, PerformAll(w, FRESH, before), line, c);
      assert acts == before + [act];
    }
  }

  lemma {:induction false} StaysStopped(w: Setup, s: Sim, act: Action)
    requires w.Usable() && s.Valid() && !s.running
    ensures Perform(w, s, act) == s
  {
  }

  lemma {:induction false} NeverSplit(w: Setup, acts: seq<Action>)
    requires w.Usable() && acts != []
    ensures var n := |acts| - 1;
            NeverGivesUp(w, acts) <==> NeverGivesUp(w, acts[..n]) && !GivesUp(w, acts[..n], acts[n])
  {
    hide GivesUp;
    var n := |acts| - 1;
    var before := acts[..n];
    assert forall k :: 0 <= k < n ==> before[..k] == acts[..k] && before[k] == acts[k];
    if NeverGivesUp(w, before) && !GivesUp(w, before, acts[n]) {
      forall k | 0 <= k < |acts| ensures !GivesUp(w, acts[..k], acts[k]) {
        if k < n { assert !GivesUp(w, before[..k], before[k]); }
      }
    }
    if NeverGivesUp(w, acts) {
      forall k | 0 <= k < n ensures !GivesUp(w, before[..k], before[k]) {
        assert !GivesUp(w, acts[..k], acts[k]);
      }
    }
  }

  /** The simulator is still running at the end exactly if it gave up on no action. */
  lemma {:induction false} RunsOnIff(cfg: Config, w: Setup, acts: seq<Action>)
    requires w.Usable() && Fits(cfg, w)
    requires forall k :: 0 <= k < |acts| ==> ShortcutOk(cfg, acts[k])
    ensures FRESH.Valid() && (PerformAll(w, FRESH, acts).running <==> NeverGivesUp(w, acts))
  {
    FreshState(w);
    if acts != [] {
      var n := |acts| - 1;
      var before, act := acts[..n], acts[n];
      hide GivesUp, StateIs, Shows, Cell, LineAt, ShortcutOk, Perform, NeverGivesUp;
      RunsOnIff(cfg, w, before);
      NeverSplit(w, acts);
      PerformLast(w, FRESH, acts);
      var s := PerformAll(w, FRESH, before);
      if s.running {
        RunTotals(cfg, w, before, 0, Ir);
        ActionStep(cfg, w, before, act, s, 0, Ir);
      } else {
        StaysStopped(w, s, act);
      }
    }
  }

  // ------------------------------------------------------------------ programs

  /** One execution of a block. */
  datatype Execution = Execution(blk: Block, env: Env, val: Values)
  {
    ghost predicate Proper() { WellFormed(blk, 0, env.Keys) && Below(env, blk.tmps) }
  }

  /** The actions of the instrumented blocks a program runs through. */
  function Performed(cfg: Config, cap: nat, run: seq<Execution>): (acts: seq<Action>)
    requires cfg.i1Line > 0
  {
    if run == [] then []
    else
      var e := run[0];
      RunOut(Traverse(cfg, cap, e.blk, Start(e.blk)), e.env, e.val).acts + Performed(cfg, cap, run[1..])
  }

  /** What the executed statements of those blocks mean. */
  function Meant(cfg: Config, run: seq<Execution>): (acts: seq<Action>)
    requires cfg.i1Line > 0
  {
    if run == [] then []
    else Meaning(cfg, run[0].blk, 0, run[0].env, run[0].val).acts + Meant(cfg, run[1..])
  }

  lemma {:induction false} PerformedIsMeant(cfg: Config, cap: nat, run: seq<Execution>)
    requires cfg.i1Line > 0 && 1 <= cap && forall j :: 0 <= j < |run| ==> run[j].Proper()
    ensures Performed(cfg, cap, run) == Meant(cfg, run)
    ensures forall act :: act in Meant(cfg, run) ==> ShortcutOk(cfg, act)
  {
    hide RunOut, Traverse, Meaning, ShortcutOk;
    if run != [] {
      var e := run[0];
      assert e.Proper();
      InstrumentedRunsAlike(cfg, cap, e.blk, e.env, e.val);
      PerformedIsMeant(cfg, cap, run[1..]);
      forall act | act in Meaning(cfg, e.blk, 0, e.env, e.val).acts ensures ShortcutOk(cfg, act) {
        MeaningShortcuts(cfg, e.blk, 0, e.env, e.val, act);
      }
    }
  }

  /** After every program run from cleared simulators, and whatever the queue capacity, every
      counter of every line holds the number of actions meant by the executed statements that
      show in it; unless one of them is an access the simulator gives up on, and then it has. */
  lemma {:induction false} EveryCounterIs(cfg: Config, cap: nat, w: Setup, run: seq<Execution>, line: nat, c: Counter)
    requires w.Usable() && Fits(cfg, w) && 1 <= cap && forall j :: 0 <= j < |run| ==> run[j].Proper()
    ensures FRESH.Valid()
    ensures var s, acts := PerformAll(w, FRESH, Performed(cfg, cap, run)), Meant(cfg, run);
            (s.running <==> NeverGivesUp(w, acts)) &&
            (s.running ==> Cell(LineAt(s, line), c) == Number(w, c, line, acts))
  {
    hide NeverGivesUp, Number, Cell, LineAt, Performed, Meant, PerformAll, ShortcutOk;
    PerformedIsMeant(cfg, cap, run);
    var acts := Meant(cfg, run);
    RunsOnIff(cfg, w, acts);
    if NeverGivesUp(w, acts) { RunTotals(cfg, w, acts, line, c); }
  }
}
