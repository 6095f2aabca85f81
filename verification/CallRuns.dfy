/** Whole runs of a profiled program: blocks entered, events counted and profiles dumped, in
    any order from the start.  The recorded stack pointers stay descending throughout, and
    all that happens to the costs is a run of accounted calls, returns and dumps. */
module CallRuns {
  import opened Options
  import opened Arith
  import opened CallCosts
  import opened ExecCounts
  import opened ShadowStack

  /** The books of a thread and its costs at the last dump. */
  datatype Machine = Machine(books: Books, lastDump: Cost)

  datatype Event = EnterBlock(in': BlockEntry) | Count(delta: Cost) | DumpProfile(executed: set<nat>)

  function Start(n: nat): (m: Machine)
    ensures InOrder(m, n)
  {
    Machine(Fresh(Zeros(n)), Zeros(n))
  }

  /** What holds of every reachable state: `n` counters that have not fallen since the last
      dump, and a descending stack. */
  ghost predicate InOrder(m: Machine, n: nat)
  {
    Sound(m.books) && |m.books.cost| == n && AtLeast(m.books.cost, m.lastDump) && Descending(m.books.frames)
  }

  /** Events that can happen: counts of `n` events, and arcs that leave blocks at their exits. */
  predicate Admissible(ev: Event, n: nat, code: nat -> Block)
  {
    match ev
    case EnterBlock(in') => EntryFits(in', code)
    case Count(delta) => |delta| == n
    case DumpProfile(_) => true
  }

  predicate AllAdmissible(evs: seq<Event>, n: nat, code: nat -> Block)
  {
    forall i :: 0 <= i < |evs| ==> Admissible(evs[i], n, code)
  }

  function Step(m: Machine, ev: Event, n: nat, code: nat -> Block): (r: Machine)
    requires InOrder(m, n) && Admissible(ev, n, code)
  {
    match ev
    case EnterBlock(in') => m.(books := Enter(m.books, m.lastDump, in'))
    case Count(delta) => m.(books := Charge(m.books, delta))
    case DumpProfile(executed) => Machine(Dump(m.books, executed, code), m.books.cost)
  }

  lemma {:induction false} StepInOrder(m: Machine, ev: Event, n: nat, code: nat -> Block)
    requires InOrder(m, n) && Admissible(ev, n, code)
    ensures InOrder(Step(m, ev, n, code), n)
  {
    match ev
    case EnterBlock(in') => EnterKeepsDescending(m.books, m.lastDump, in');
    case Count(delta) =>
    case DumpProfile(executed) =>
      var b, s := m.books, SettleFrom(m.books, 0);
      forall i, j | 0 <= i < j < |s.frames| ensures s.frames[i].sp >= s.frames[j].sp {
        assert b.frames[i].sp >= b.frames[j].sp;
      }
  }

  /** The state after a sequence of events. */
  function Final(m: Machine, evs: seq<Event>, n: nat, code: nat -> Block): (r: Machine)
    requires InOrder(m, n) && AllAdmissible(evs, n, code)
    ensures InOrder(r, n)
    decreases |evs|
  {
    if evs == [] then m
    else
      StepInOrder(m, evs[0], n, code);
      Final(Step(m, evs[0], n, code), evs[1..], n, code)
  }

  /** The charges, calls, returns and dumps of one event, and of a sequence of events. */
  function EventOps(m: Machine, ev: Event): (ops: seq<Op>)
  {
    match ev
    case EnterBlock(in') => EnterOps(m.books, m.lastDump, in')
    case Count(delta) => [ChargeOp(delta)]
    case DumpProfile(executed) => [DumpOp(executed)]
  }

  function RunOps(m: Machine, evs: seq<Event>, n: nat, code: nat -> Block): (ops: seq<Op>)
    requires InOrder(m, n) && AllAdmissible(evs, n, code)
    decreases |evs|
  {
    if evs == [] then []
    else
      StepInOrder(m, evs[0], n, code);
      EventOps(m, evs[0]) + RunOps(Step(m, evs[0], n, code), evs[1..], n, code)
  }

  lemma {:induction false} EventIsARun(m: Machine, ev: Event, n: nat, code: nat -> Block)
    requires InOrder(m, n) && Admissible(ev, n, code)
    ensures Possible(m.books, EventOps(m, ev), code)
    ensures DoAll(m.books, EventOps(m, ev), code) == Step(m, ev, n, code).books
  {
    match ev
    case EnterBlock(in') => EnterIsARun(m.books, m.lastDump, code, in');
    case Count(delta) => OneStep(m.books, ChargeOp(delta), code);
    case DumpProfile(executed) => OneStep(m.books, DumpOp(executed), code);
  }

  lemma {:induction false} RunIsARun(m: Machine, evs: seq<Event>, n: nat, code: nat -> Block)
    requires InOrder(m, n) && AllAdmissible(evs, n, code)
    ensures Possible(m.books, RunOps(m, evs, n, code), code)
    ensures DoAll(m.books, RunOps(m, evs, n, code), code) == Final(m, evs, n, code).books
    decreases |evs|
  {
    if evs != [] {
      var m' := Step(m, evs[0], n, code);
      StepInOrder(m, evs[0], n, code);
      EventIsARun(m, evs[0], n, code);
      RunIsARun(m', evs[1..], n, code);
      DoAllConcat(m.books, EventOps(m, evs[0]), RunOps(m', evs[1..], n, code), code);
    }
  }

  /** Recording the history of a run does not change what it does. */
  lemma {:induction false} RunDoesAll(b: Books, h: History, ops: seq<Op>, code: nat -> Block)
    requires Right(b, h, code) && Possible(b, ops, code)
    ensures Run(b, h, ops, code).books == DoAll(b, ops, code)
    decreases |ops|
  {
    if ops != [] {
      StepKeeps(b, h, ops[0], code);
      RunDoesAll(Do(b, ops[0], code), Record(h, b, ops[0], code), ops[1..], code);
    }
  }

  /** After every sequence of block entries, counts and dumps from the start the recorded
      stack pointers descend, no counter is below its value at the last dump, and the books
      are right: they are those of a run of the calls, returns and dumps that the events
      stand for, and balance against its history. */
  lemma {:induction false} EveryRunIsRight(evs: seq<Event>, n: nat, code: nat -> Block)
    requires AllAdmissible(evs, n, code)
    ensures var m, ops := Final(Start(n), evs, n, code), RunOps(Start(n), evs, n, code);
            Descending(m.books.frames) && AtLeast(m.books.cost, m.lastDump) &&
            Possible(Fresh(Zeros(n)), ops, code) &&
            FullRun(Zeros(n), ops, code).books == m.books &&
            Right(m.books, FullRun(Zeros(n), ops, code).history, code)
  {
    var ops := RunOps(Start(n), evs, n, code);
    RunIsARun(Start(n), evs, n, code);
    FreshIsRight(Zeros(n), code);
    RunDoesAll(Fresh(Zeros(n)), NO_HISTORY, ops, code);
  }

  /** So in every reachable state an unwind pops the frames below the stack pointer, and of
      those equal to it just enough to reach the number asked for. */
  lemma {:induction false} EveryUnwindCounts(evs: seq<Event>, n: nat, code: nat -> Block, sp: nat, minpops: int)
    requires AllAdmissible(evs, n, code)
    ensures var b := Final(Start(n), evs, n, code).books;
            var k, e := Below(b.frames, sp), Equal(b.frames, sp);
            Unwind(b, sp, minpops).count == Max(k, Min(k + e, minpops))
  {
    hide Final, Start, Unwind, Below, Equal, Sound, Descending;
    UnwindCount(Final(Start(n), evs, n, code).books, sp, minpops);
  }

  lemma {:induction false} FinalConcat(m: Machine, p: seq<Event>, q: seq<Event>, n: nat, code: nat -> Block)
    requires InOrder(m, n) && AllAdmissible(p, n, code) && AllAdmissible(q, n, code)
    ensures AllAdmissible(p + q, n, code)
    ensures Final(m, p + q, n, code) == Final(Final(m, p, n, code), q, n, code)
    decreases |p|
  {
    if p == [] {
      assert p + q == q;
    } else {
      StepInOrder(m, p[0], n, code);
      assert (p + q)[1..] == p[1..] + q;
      FinalConcat(Step(m, p[0], n, code), p[1..], q, n, code);
    }
  }

  lemma {:induction false} LastDumpStays(m: Machine, evs: seq<Event>, n: nat, code: nat -> Block)
    requires InOrder(m, n) && AllAdmissible(evs, n, code)
    requires forall i :: 0 <= i < |evs| ==> !evs[i].DumpProfile?
    ensures Final(m, evs, n, code).lastDump == m.lastDump
    decreases |evs|
  {
    if evs != [] {
      StepInOrder(m, evs[0], n, code);
      LastDumpStays(Step(m, evs[0], n, code), evs[1..], n, code);
    }
  }

  /** A call found missing by an underflow is counted since the last dump: what is remembered
      are the counters at the latest of them. */
  lemma {:induction false} LastDumpIs(before: seq<Event>, executed: set<nat>, after: seq<Event>, n: nat, code: nat -> Block)
    requires AllAdmissible(before, n, code) && AllAdmissible(after, n, code)
    requires forall i :: 0 <= i < |after| ==> !after[i].DumpProfile?
    ensures AllAdmissible(before + [DumpProfile(executed)] + after, n, code)
    ensures Final(Start(n), before + [DumpProfile(executed)] + after, n, code).lastDump ==
            Final(Start(n), before, n, code).books.cost
  {
    var dump := [DumpProfile(executed)];
    var m := Final(Start(n), before, n, code);
    FinalConcat(Start(n), before, dump, n, code);
    FinalConcat(Start(n), before + dump, after, n, code);
    StepInOrder(m, dump[0], n, code);
    assert dump[1..] == [];
    assert Final(m, dump, n, code) == Step(m, dump[0], n, code);
    LastDumpStays(Final(m, dump, n, code), after, n, code);
  }
}
