/** What the call costs of a whole run are, told from its events alone: which calls are active,
    when each began, what had been counted by then, and what every arc has taken from the calls
    that ended. */
module CallHistory {
  import opened Arith
  import opened Options
  import opened CallCosts
  import opened ExecCounts
  import opened ShadowStack
  import opened CallRuns
  import opened CallEntries

  /** What the events have counted of event `e`. */
  function TotalOf(evs: seq<Event>, e: nat): (t: nat)
  {
    if evs == [] then 0
    else
      var last := evs[|evs|-1];
      TotalOf(evs[..|evs|-1], e) + if last.Count? && e < |last.delta| then last.delta[e] else 0
  }

  /** The number of events before the latest dump, and 0 if there was none. */
  function LatestDump(evs: seq<Event>): (i: nat)
    ensures i <= |evs|
  {
    if evs == [] then 0
    else if evs[|evs|-1].DumpProfile? then |evs| - 1
    else LatestDump(evs[..|evs|-1])
  }

  /** The calls active after the events. */
  ghost function Active(evs: seq<Event>): (cs: seq<ActiveCall>)
    ensures forall k :: 0 <= k < |cs| ==> cs[k].at < |evs|
  {
    if evs == [] then []
    else
      var before, last := evs[..|evs|-1], evs[|evs|-1];
      if last.EnterBlock? then ActiveAfter(Active(before), last.in', |before|) else Active(before)
  }

  /** What the calls of an arc from number `k` on take if they end now: what has been counted
      since they began. */
  ghost function Taken(evs: seq<Event>, cs: seq<ActiveCall>, k: nat, j: Arc, e: nat): (t: int)
    requires k <= |cs| && forall i :: 0 <= i < |cs| ==> cs[i].at <= |evs|
    decreases |cs| - k
  {
    if k == |cs| then 0
    else
      Taken(evs, cs, k + 1, j, e) +
      if cs[k].jcc == Some(j) then TotalOf(evs, e) - TotalOf(evs[..cs[k].at], e) else 0
  }

  /** What a call only found out when it returned takes: what has been counted since the latest
      dump. */
  function SinceDump(evs: seq<Event>, e: nat): (t: int)
  {
    TotalOf(evs, e) - TotalOf(evs[..LatestDump(evs)], e)
  }

  /** What an arc has taken from the calls that ended. */
  ghost function EndedTook(evs: seq<Event>, j: Arc, e: nat): (t: int)
  {
    if evs == [] then 0
    else
      var before, last := evs[..|evs|-1], evs[|evs|-1];
      EndedTook(before, j, e) +
      if !last.EnterBlock? then 0
      else
        Taken(before, Active(before), Staying(Active(before), last.in'), j, e) +
        if FromOutside(Active(before), last.in') && last.in'.underflowJcc == j then SinceDump(before, e) else 0
  }

  // ------------------------------------------------------------------ the machine's history says the same

  /** Counters, stack and history are those told from the events. */
  ghost predicate Tells(evs: seq<Event>, m: Machine, h: History, n: nat)
  {
    CountersTell(evs, m, n) && CallsTell(evs, m.books.frames, h, n) && TookTell(evs, h, n)
  }

  ghost predicate TookTell(evs: seq<Event>, h: History, n: nat)
  {
    forall j, e :: 0 <= e < n ==> At(h.finished, j, e) == EndedTook(evs, j, e)
  }

  ghost predicate IsTotal(c: Cost, evs: seq<Event>, n: nat)
  {
    |c| == n && forall e :: 0 <= e < n ==> c[e] == TotalOf(evs, e)
  }

  ghost predicate CountersTell(evs: seq<Event>, m: Machine, n: nat)
  {
    IsTotal(m.books.cost, evs, n) && IsTotal(m.lastDump, evs[..LatestDump(evs)], n)
  }

  ghost predicate CallsTell(evs: seq<Event>, fs: seq<Frame>, h: History, n: nat)
  {
    CallsAre(evs, Active(evs), fs, h.entered, n)
  }

  ghost predicate CallsAre(evs: seq<Event>, cs: seq<ActiveCall>, fs: seq<Frame>, entered: seq<Cost>, n: nat)
  {
    Agree(cs, fs) && |entered| == |fs| &&
    forall k :: 0 <= k < |fs| ==> cs[k].at <= |evs| && IsTotal(entered[k], evs[..cs[k].at], n)
  }

  lemma {:induction false} RunConcat(b: Books, h: History, p: seq<Op>, q: seq<Op>, code: nat -> Block)
    requires Right(b, h, code) && Possible(b, p, code) && Possible(Run(b, h, p, code).books, q, code)
    ensures Possible(b, p + q, code)
    ensures var o := Run(b, h, p, code); Run(b, h, p + q, code) == Run(o.books, o.history, q, code)
    decreases |p|
  {
    hide Do, Record, Enabled, Sound, Marked, AllFit, OnlyReached;
    if p == [] {
      assert p + q == q;
    } else {
      assert (p + q)[0] == p[0] && (p + q)[1..] == p[1..] + q;
      StepKeeps(b, h, p[0], code);
      RunConcat(Do(b, p[0], code), Record(h, b, p[0], code), p[1..], q, code);
    }
  }

  lemma {:induction false} RunOne(b: Books, h: History, op: Op, code: nat -> Block)
    requires Right(b, h, code) && Enabled(b, op, code)
    ensures Possible(b, [op], code)
    ensures Run(b, h, [op], code) == Outcome(Do(b, op, code), Record(h, b, op, code))
  {
    hide Do, Record, Enabled;
    StepKeeps(b, h, op, code);
    assert [op][1..] == [];
  }

  /** What the calls of an arc from frame `k` on would take if they ended with these counters. */
  function FramesTook(fs: seq<Frame>, entered: seq<Cost>, cost: Cost, k: nat, j: Arc, e: nat): (t: int)
    requires |fs| == |entered| && k <= |fs| && e < |cost|
    decreases |fs| - k
  {
    if k == |fs| then 0
    else
      var now: int := cost[e];
      FramesTook(fs, entered, cost, k + 1, j, e) +
      if fs[k].jcc == Some(j) && e < |entered[k]| then now - entered[k][e] else 0
  }

  lemma {:induction false} PopEntered(b: Books, h: History, code: nat -> Block)
    requires Right(b, h, code) && b.frames != []
    ensures |h.entered| == |b.frames| && Record(h, b, PopOp, code).entered == h.entered[..|b.frames|-1]
  {
  }

  lemma {:induction false} PopRecords(b: Books, h: History, code: nat -> Block, j: Arc, e: nat)
    requires Right(b, h, code) && b.frames != [] && e < |b.cost|
    ensures var last := |b.frames| - 1;
            var f, now: int := b.frames[last], b.cost[e];
            var h' := Record(h, b, PopOp, code);
            h'.entered == h.entered[..last] &&
            At(h'.finished, j, e) == At(h.finished, j, e) +
              if f.jcc == Some(j) && e < |h.entered[last]| then now - h.entered[last][e] else 0
  {
    var last := |b.frames| - 1;
    if b.frames[last].jcc.Some? { AtLeastTrans(b.cost, b.frames[last].enter, h.entered[last]); }
  }

  lemma {:induction false} PopsSplit(k: nat)
    requires k > 0
    ensures PopOps(k) == PopOps(k - 1) + [PopOp]
  {
  }

  /** Ending one call more. */
  lemma {:induction false} PopsLast(b: Books, h: History, k: nat, code: nat -> Block)
    requires Right(b, h, code) && k > 0 && Possible(b, PopOps(k - 1), code)
    requires Run(b, h, PopOps(k - 1), code).books.frames != []
    ensures Possible(b, PopOps(k), code)
    ensures var o := Run(b, h, PopOps(k - 1), code);
            Right(o.books, o.history, code) &&
            Run(b, h, PopOps(k), code) == Outcome(Pop(o.books), Record(o.history, o.books, PopOp, code))
  {
    var o := Run(b, h, PopOps(k - 1), code);
    assert Do(o.books, PopOp, code) == Pop(o.books);
    hide Right, Run, PopOps, Possible, Record, Do, Pop;
    PopsSplit(k);
    RunOne(o.books, o.history, PopOp, code);
    RunConcat(b, h, PopOps(k - 1), [PopOp], code);
  }

  lemma {:induction false} NoPops(b: Books, h: History, code: nat -> Block)
    requires Right(b, h, code)
    ensures Possible(b, PopOps(0), code) && Run(b, h, PopOps(0), code) == Outcome(b, h) && |h.entered| == |b.frames|
  {
    assert PopOps(0) == [];
  }

  /** Ending the latest `k` calls. */
  lemma {:induction false} PopsRun(b: Books, h: History, k: nat, code: nat -> Block)
    requires Right(b, h, code) && k <= |b.frames|
    ensures Possible(b, PopOps(k), code)
    ensures var o, m := Run(b, h, PopOps(k), code), |b.frames| - k;
            o.books.cost == b.cost && o.books.frames == b.frames[..m] && o.history.entered == h.entered[..m]
  {
    hide Right, Run, PopOps, Possible, Record, Pop;
    NoPops(b, h, code);
    if k > 0 {
      PopsRun(b, h, k - 1, code);
      var o, m := Run(b, h, PopOps(k - 1), code), |b.frames| - k;
      PopsLast(b, h, k, code);
      PopEntered(o.books, o.history, code);
      assert b.frames[..m+1][..m] == b.frames[..m] && h.entered[..m+1][..m] == h.entered[..m];
    }
  }

  /** What that adds to what an arc has taken. */
  lemma {:induction false} PopsTook(b: Books, h: History, k: nat, code: nat -> Block, j: Arc, e: nat)
    requires Right(b, h, code) && k <= |b.frames| && Possible(b, PopOps(k), code) && e < |b.cost|
    ensures |h.entered| == |b.frames|
    ensures At(Run(b, h, PopOps(k), code).history.finished, j, e) ==
            At(h.finished, j, e) + FramesTook(b.frames, h.entered, b.cost, |b.frames| - k, j, e)
  {
    hide Right, Run, PopOps, Possible, At, Record;
    NoPops(b, h, code);
    if k > 0 {
      PopsRun(b, h, k - 1, code);
      PopsTook(b, h, k - 1, code, j, e);
      PopsLast(b, h, k, code);
      var o := Run(b, h, PopOps(k - 1), code);
      PopRecords(o.books, o.history, code, j, e);
    }
  }

  // ------------------------------------------------------------------ one event

  lemma {:induction false} OneMoreEvent(evs: seq<Event>, ev: Event)
    ensures var more := evs + [ev];
            more[..|evs|] == evs && more[|evs|] == ev && forall i :: 0 <= i <= |evs| ==> more[..i] == evs[..i]
  {
    var more := evs + [ev];
    forall i | 0 <= i <= |evs| ensures more[..i] == evs[..i] { }
  }

  lemma {:induction false} TotalOneMore(evs: seq<Event>, ev: Event, e: nat)
    ensures TotalOf(evs + [ev], e) == TotalOf(evs, e) + if ev.Count? && e < |ev.delta| then ev.delta[e] else 0
  {
    OneMoreEvent(evs, ev);
  }

  lemma {:induction false} CountersKeep(evs: seq<Event>, m: Machine, ev: Event, n: nat, code: nat -> Block)
    requires InOrder(m, n) && Admissible(ev, n, code) && CountersTell(evs, m, n)
    ensures CountersTell(evs + [ev], Step(m, ev, n, code), n)
  {
    hide Sound, Descending, Dump, Enter;
    var more := evs + [ev];
    OneMoreEvent(evs, ev);
    forall e | 0 <= e < n ensures TotalOf(more, e) == TotalOf(evs, e) + if ev.Count? then ev.delta[e] else 0 {
      TotalOneMore(evs, ev, e);
    }
    assert LatestDump(more) == if ev.DumpProfile? then |evs| else LatestDump(evs);
    assert more[..LatestDump(more)] == if ev.DumpProfile? then evs else evs[..LatestDump(evs)];
    assert ev.EnterBlock? ==> Enter(m.books, m.lastDump, ev.in').cost == m.books.cost;
    if ev.DumpProfile? { DumpCost(m.books, ev.executed, code); }
  }

  lemma {:induction false} DumpCost(b: Books, executed: set<nat>, code: nat -> Block)
    requires Sound(b)
    ensures Dump(b, executed, code).cost == b.cost
  {
  }

  /** What frames would take is what the active calls would. */
  lemma {:induction false} TookIs(evs: seq<Event>, m: Machine, h: History, n: nat, k: nat, j: Arc, e: nat)
    requires CountersTell(evs, m, n) && CallsTell(evs, m.books.frames, h, n) && k <= |m.books.frames| && e < n
    ensures FramesTook(m.books.frames, h.entered, m.books.cost, k, j, e) == Taken(evs, Active(evs), k, j, e)
    decreases |m.books.frames| - k
  {
    hide Active, TotalOf, LatestDump;
    if k < |m.books.frames| { TookIs(evs, m, h, n, k + 1, j, e); }
  }

  lemma {:induction false} CallsStay(evs: seq<Event>, ev: Event, cs: seq<ActiveCall>, fs: seq<Frame>, entered: seq<Cost>,
                                     k: nat, n: nat)
    requires CallsAre(evs, cs, fs, entered, n) && k <= |cs|
    ensures CallsAre(evs + [ev], cs[..k], fs[..k], entered[..k], n)
  {
    hide IsTotal;
    OneMoreEvent(evs, ev);
  }

  lemma {:induction false} CallBegan(evs: seq<Event>, ev: Event, cs: seq<ActiveCall>, fs: seq<Frame>, entered: seq<Cost>,
                                     c: ActiveCall, f: Frame, cost: Cost, n: nat)
    requires CallsAre(evs + [ev], cs, fs, entered, n) && IsTotal(cost, evs, n)
    requires c.at == |evs| && c.jcc == f.jcc && c.sp == f.sp && c.ret == f.ret
    ensures CallsAre(evs + [ev], cs + [c], fs + [f], entered + [cost], n)
  {
    hide IsTotal;
    OneMoreEvent(evs, ev);
  }

  /** An optional push after some returns. */
  function PushIf(begins: bool, f: Frame): (ops: seq<Op>)
  {
    if begins then [PushOp(f)] else []
  }

  lemma {:induction false} PushRun(b: Books, h: History, begins: bool, f: Frame, code: nat -> Block)
    requires Right(b, h, code) && Enabled(b, PushOp(f), code)
    ensures Possible(b, PushIf(begins, f), code)
    ensures Run(b, h, PushIf(begins, f), code) ==
            if begins then Outcome(Push(b, f), h.(entered := h.entered + [f.enter])) else Outcome(b, h)
  {
    hide Right;
    if begins { RunOne(b, h, PushOp(f), code); }
  }

  /** Some calls end and then perhaps one begins. */
  lemma {:induction false} EntryRun(b: Books, h: History, k: nat, begins: bool, f: Frame, code: nat -> Block)
    requires Right(b, h, code) && k <= |b.frames| && Enabled(b, PushOp(f), code)
    ensures var ops, m := PopOps(k) + PushIf(begins, f), |b.frames| - k;
            Possible(b, ops, code) && Possible(b, PopOps(k), code) && |h.entered| == |b.frames| &&
            var o := Run(b, h, ops, code);
            o.books.frames == b.frames[..m] + (if begins then [f] else []) &&
            o.history.entered == h.entered[..m] + (if begins then [f.enter] else []) &&
            o.history.finished == Run(b, h, PopOps(k), code).history.finished
  {
    NoPops(b, h, code);
    PopsRun(b, h, k, code);
    var o := Run(b, h, PopOps(k), code);
    assert Enabled(o.books, PushOp(f), code);
    hide Right, Run, Possible, PopOps, PushIf, Enabled;
    PushRun(o.books, o.history, begins, f, code);
    RunConcat(b, h, PopOps(k), PushIf(begins, f), code);
  }

  lemma {:induction false} EntryOpsSplit(cs: seq<ActiveCall>, b: Books, lastDump: Cost, in': BlockEntry)
    requires Agree(cs, b.frames) && Descending(b.frames) && !FromOutside(cs, in')
    ensures EnterOps(b, lastDump, in') ==
            PopOps(|cs| - Staying(cs, in')) + PushIf(Begins(cs, in'), NewFrame(cs, b.cost, in'))
  {
    hide EnterOps, Staying, Begins, NewFrame, FromOutside, PopOps;
    EntryOpsAre(cs, b, lastDump, in');
  }

  lemma {:induction false} NewEnabled(cs: seq<ActiveCall>, b: Books, in': BlockEntry, code: nat -> Block)
    requires EntryFits(in', code)
    ensures Enabled(b, PushOp(NewFrame(cs, b.cost, in')), code)
  {
  }

  /** A block entry other than a return from outside: what it runs through. */
  lemma {:induction false} EntryIs(evs: seq<Event>, m: Machine, h: History, in': BlockEntry, n: nat, code: nat -> Block)
    requires InOrder(m, n) && EntryFits(in', code) && Right(m.books, h, code)
    requires CountersTell(evs, m, n) && CallsTell(evs, m.books.frames, h, n) && !FromOutside(Active(evs), in')
    ensures var cs, ops := Active(evs), EnterOps(m.books, m.lastDump, in');
            var s, f := Staying(cs, in'), NewFrame(cs, m.books.cost, in');
            |cs| == |m.books.frames| == |h.entered| &&
            Possible(m.books, ops, code) && Possible(m.books, PopOps(|cs| - s), code) &&
            var o := Run(m.books, h, ops, code);
            o.books.frames == m.books.frames[..s] + (if Begins(cs, in') then [f] else []) &&
            o.history.entered == h.entered[..s] + (if Begins(cs, in') then [f.enter] else []) &&
            o.history.finished == Run(m.books, h, PopOps(|cs| - s), code).history.finished
  {
    var b, cs := m.books, Active(evs);
    hide Active, Right, Run, Possible, PopOps, PushIf, Enabled, EnterOps, Begins, Staying, RecordedSp, FromOutside, TotalOf,
         LatestDump;
    EntryOpsSplit(cs, b, m.lastDump, in');
    NewEnabled(cs, b, in', code);
    EntryRun(b, h, |cs| - Staying(cs, in'), Begins(cs, in'), NewFrame(cs, b.cost, in'), code);
  }

  /** The active calls are then those told from the events. */
  lemma {:induction false} EntryKeeps(evs: seq<Event>, m: Machine, h: History, in': BlockEntry, n: nat, code: nat -> Block)
    requires InOrder(m, n) && EntryFits(in', code) && Right(m.books, h, code)
    requires CountersTell(evs, m, n) && CallsTell(evs, m.books.frames, h, n) && !FromOutside(Active(evs), in')
    ensures var ops := EnterOps(m.books, m.lastDump, in');
            Possible(m.books, ops, code) &&
            var o := Run(m.books, h, ops, code);
            CallsTell(evs + [EnterBlock(in')], o.books.frames, o.history, n)
  {
    var b, cs, ev := m.books, Active(evs), EnterBlock(in');
    var s, f := Staying(cs, in'), NewFrame(cs, b.cost, in');
    OneMoreEvent(evs, ev);
    assert Active(evs + [ev]) == ActiveAfter(cs, in', |evs|);
    EntryIs(evs, m, h, in', n, code);
    hide Active, TotalOf, LatestDump, Right, Run, Possible, EnterOps, Begins, Staying, RecordedSp, FromOutside;
    CallsStay(evs, ev, cs, b.frames, h.entered, s, n);
    if Begins(cs, in') {
      CallBegan(evs, ev, cs[..s], b.frames[..s], h.entered[..s],
                ActiveCall(in'.jcc, RecordedSp(cs, in'), in'.ret, |evs|), f, b.cost, n);
    } else {
      assert cs[..s] + [] == cs[..s] && b.frames[..s] + [] == b.frames[..s] && h.entered[..s] + [] == h.entered[..s];
    }
  }

  /** And the calls that ended took what was counted since they began. */
  lemma {:induction false} EntryTook(evs: seq<Event>, m: Machine, h: History, in': BlockEntry, n: nat, code: nat -> Block,
                                     j: Arc, e: nat)
    requires InOrder(m, n) && EntryFits(in', code) && Right(m.books, h, code)
    requires CountersTell(evs, m, n) && CallsTell(evs, m.books.frames, h, n) && !FromOutside(Active(evs), in')
    requires e < n
    ensures var ops := EnterOps(m.books, m.lastDump, in');
            Possible(m.books, ops, code) &&
            At(Run(m.books, h, ops, code).history.finished, j, e) ==
            At(h.finished, j, e) + Taken(evs, Active(evs), Staying(Active(evs), in'), j, e)
  {
    hide Active, Taken, Right, Run, Possible, EnterOps, Begins, Staying, RecordedSp, At, FromOutside, PopOps;
    var cs := Active(evs);
    var s := Staying(cs, in');
    EntryIs(evs, m, h, in', n, code);
    PopsTook(m.books, h, |cs| - s, code, j, e);
    TookIs(evs, m, h, n, s, j, e);
  }

  lemma {:induction false} UnderflowRun(b: Books, h: History, f: Frame, code: nat -> Block)
    requires Right(b, h, code) && Enabled(b, PushOp(f), code)
    ensures var ops := [PushOp(f), PopOp];
            Possible(b, ops, code) && |h.entered| == |b.frames| &&
            var p := Push(b, f);
            var g := h.(entered := h.entered + [f.enter]);
            Right(p, g, code) && Run(b, h, ops, code) == Outcome(Pop(p), Record(g, p, PopOp, code))
  {
    PushRun(b, h, true, f, code);
    NoPops(b, h, code);
    var p, g := Push(b, f), h.(entered := h.entered + [f.enter]);
    assert Run(b, h, [PushOp(f)], code) == Outcome(p, g);
    assert Do(p, PopOp, code) == Pop(p);
    hide Right, Run, Possible, Record, Do, Pop;
    RunOne(p, g, PopOp, code);
    RunConcat(b, h, [PushOp(f)], [PopOp], code);
    assert [PushOp(f)] + [PopOp] == [PushOp(f), PopOp];
  }

  /** A return from outside begins and ends a call at once. */
  lemma {:induction false} OutsideIs(evs: seq<Event>, m: Machine, h: History, in': BlockEntry, n: nat, code: nat -> Block)
    requires InOrder(m, n) && EntryFits(in', code) && Right(m.books, h, code)
    requires CallsTell(evs, m.books.frames, h, n) && FromOutside(Active(evs), in')
    ensures var f, ops := UnderflowFrame(m.lastDump, in'), EnterOps(m.books, m.lastDump, in');
            var p, g := Push(m.books, f), h.(entered := h.entered + [f.enter]);
            Possible(m.books, ops, code) && Right(p, g, code) &&
            Run(m.books, h, ops, code) == Outcome(Pop(p), Record(g, p, PopOp, code))
  {
    var b, f := m.books, UnderflowFrame(m.lastDump, in');
    EntryOpsAre(Active(evs), b, m.lastDump, in');
    assert Enabled(b, PushOp(f), code);
    hide Active, Right, Run, Possible, Enabled, EnterOps, Staying, Begins, Pop, Record, FromOutside;
    UnderflowRun(b, h, f, code);
  }

  lemma {:induction false} OutsideStays(evs: seq<Event>, in': BlockEntry)
    requires FromOutside(Active(evs), in')
    ensures Active(evs + [EnterBlock(in')]) == Active(evs)
  {
    OneMoreEvent(evs, EnterBlock(in'));
  }

  /** A return from outside takes what was counted since the latest dump. */
  lemma {:induction false} OutsideKeeps(evs: seq<Event>, m: Machine, h: History, in': BlockEntry, n: nat, code: nat -> Block)
    requires InOrder(m, n) && EntryFits(in', code) && Right(m.books, h, code)
    requires CountersTell(evs, m, n) && CallsTell(evs, m.books.frames, h, n) && FromOutside(Active(evs), in')
    ensures var ev, ops := EnterBlock(in'), EnterOps(m.books, m.lastDump, in');
            Possible(m.books, ops, code) &&
            var o := Run(m.books, h, ops, code);
            CallsTell(evs + [ev], o.books.frames, o.history, n) &&
            forall j, e :: 0 <= e < n ==>
              At(o.history.finished, j, e) ==
              At(h.finished, j, e) + if in'.underflowJcc == j then SinceDump(evs, e) else 0
  {
    var b, cs, ev, f := m.books, Active(evs), EnterBlock(in'), UnderflowFrame(m.lastDump, in');
    var p, g := Push(b, f), h.(entered := h.entered + [f.enter]);
    hide Active, Right, Run, Possible, Enabled, EnterOps, Staying, Begins, At, TotalOf, LatestDump, Pop, Record, FromOutside;
    OutsideIs(evs, m, h, in', n, code);
    var o := Run(b, h, EnterOps(b, m.lastDump, in'), code);
    OutsideStays(evs, in');
    CallsStay(evs, ev, cs, b.frames, h.entered, |cs|, n);
    assert cs[..|cs|] == cs && b.frames[..|cs|] == b.frames == p.frames[..|cs|];
    assert h.entered[..|cs|] == h.entered == g.entered[..|cs|];
    PopEntered(p, g, code);
    forall j, e | 0 <= e < n
      ensures At(o.history.finished, j, e) ==
              At(h.finished, j, e) + if in'.underflowJcc == j then SinceDump(evs, e) else 0
    {
      PopRecords(p, g, code, j, e);
    }
  }

  lemma {:induction false} DumpCalls(b: Books, cs: seq<ActiveCall>, executed: set<nat>, code: nat -> Block)
    requires Sound(b) && Agree(cs, b.frames)
    ensures Agree(cs, Dump(b, executed, code).frames)
  {
    var r := Dump(b, executed, code).frames;
    assert forall k :: 0 <= k < |r| ==> r[k].(enter := []) == b.frames[k].(enter := []);
  }

  /** Counting and dumping leave the active calls and what was taken as they are. */
  lemma {:induction false} OthersKeep(evs: seq<Event>, m: Machine, h: History, ev: Event, n: nat, code: nat -> Block)
    requires InOrder(m, n) && Admissible(ev, n, code) && Right(m.books, h, code) && !ev.EnterBlock?
    requires CallsTell(evs, m.books.frames, h, n)
    ensures Possible(m.books, EventOps(m, ev), code)
    ensures var o := Run(m.books, h, EventOps(m, ev), code);
            CallsTell(evs + [ev], o.books.frames, o.history, n) && o.history.finished == h.finished
  {
    var cs := Active(evs);
    OneMoreEvent(evs, ev);
    assert Active(evs + [ev]) == cs;
    var op := EventOps(m, ev)[0];
    assert EventOps(m, ev) == [op];
    RunOne(m.books, h, op, code);
    if ev.DumpProfile? { DumpCalls(m.books, cs, ev.executed, code); }
    hide Active, IsTotal, Run, Possible, Right, Dump, Sound, Descending;
    assert cs[..|cs|] == cs && h.entered[..|cs|] == h.entered && m.books.frames[..|cs|] == m.books.frames;
    CallsStay(evs, ev, cs, m.books.frames, h.entered, |cs|, n);
  }

  /** What one more event adds to what an arc has taken. */
  ghost function TookBy(evs: seq<Event>, ev: Event, j: Arc, e: nat): (t: int)
  {
    if !ev.EnterBlock? then 0
    else
      Taken(evs, Active(evs), Staying(Active(evs), ev.in'), j, e) +
      if FromOutside(Active(evs), ev.in') && ev.in'.underflowJcc == j then SinceDump(evs, e) else 0
  }

  lemma {:induction false} TookOneMore(evs: seq<Event>, ev: Event, j: Arc, e: nat)
    ensures EndedTook(evs + [ev], j, e) == EndedTook(evs, j, e) + TookBy(evs, ev, j, e)
  {
    OneMoreEvent(evs, ev);
  }

  lemma {:induction false} CallsKeep(evs: seq<Event>, m: Machine, h: History, ev: Event, n: nat, code: nat -> Block)
    requires InOrder(m, n) && Admissible(ev, n, code) && Right(m.books, h, code) && Tells(evs, m, h, n)
    ensures Possible(m.books, EventOps(m, ev), code)
    ensures var o := Run(m.books, h, EventOps(m, ev), code); CallsTell(evs + [ev], o.books.frames, o.history, n)
  {
    hide Active, Run, Possible, Right, CallsTell, CountersTell, TookTell, FromOutside, EnterOps;
    if !ev.EnterBlock? {
      OthersKeep(evs, m, h, ev, n, code);
    } else if FromOutside(Active(evs), ev.in') {
      OutsideKeeps(evs, m, h, ev.in', n, code);
    } else {
      EntryKeeps(evs, m, h, ev.in', n, code);
    }
  }

  lemma {:induction false} TookKeeps(evs: seq<Event>, m: Machine, h: History, ev: Event, n: nat, code: nat -> Block, j: Arc, e: nat)
    requires InOrder(m, n) && Admissible(ev, n, code) && Right(m.books, h, code) && Tells(evs, m, h, n)
    requires e < n && Possible(m.books, EventOps(m, ev), code)
    ensures At(Run(m.books, h, EventOps(m, ev), code).history.finished, j, e) ==
            At(h.finished, j, e) + TookBy(evs, ev, j, e)
  {
    hide Active, Run, Possible, Right, CallsTell, CountersTell, TookTell, FromOutside, EnterOps, At, Staying;
    if !ev.EnterBlock? {
      OthersKeep(evs, m, h, ev, n, code);
    } else if FromOutside(Active(evs), ev.in') {
      OutsideKeeps(evs, m, h, ev.in', n, code);
      StaysAll(Active(evs), ev.in');
    } else {
      EntryTook(evs, m, h, ev.in', n, code, j, e);
    }
  }

  lemma {:induction false} StaysAll(cs: seq<ActiveCall>, in': BlockEntry)
    requires FromOutside(cs, in')
    ensures Staying(cs, in') == |cs|
  {
  }

  /** Every event keeps machine and history as told. */
  lemma {:induction false} EventKeeps(evs: seq<Event>, m: Machine, h: History, ev: Event, n: nat, code: nat -> Block)
    requires InOrder(m, n) && Admissible(ev, n, code) && Right(m.books, h, code) && Tells(evs, m, h, n)
    ensures Possible(m.books, EventOps(m, ev), code)
    ensures var o := Run(m.books, h, EventOps(m, ev), code);
            o.books == Step(m, ev, n, code).books && Tells(evs + [ev], Step(m, ev, n, code), o.history, n)
  {
    EventIsARun(m, ev, n, code);
    RunDoesAll(m.books, h, EventOps(m, ev), code);
    CountersKeep(evs, m, ev, n, code);
    CallsKeep(evs, m, h, ev, n, code);
    var o := Run(m.books, h, EventOps(m, ev), code);
    hide *;
    assert TookTell(evs + [ev], o.history, n) by { TookAllKept(evs, m, h, ev, n, code); }
    TellsAre(evs + [ev], Step(m, ev, n, code), o.history, n);
  }

  lemma {:induction false} TellsAre(evs: seq<Event>, m: Machine, h: History, n: nat)
    requires CountersTell(evs, m, n) && CallsTell(evs, m.books.frames, h, n) && TookTell(evs, h, n)
    ensures Tells(evs, m, h, n)
  {
  }

  lemma {:induction false} TookAllKept(evs: seq<Event>, m: Machine, h: History, ev: Event, n: nat, code: nat -> Block)
    requires InOrder(m, n) && Admissible(ev, n, code) && Right(m.books, h, code) && Tells(evs, m, h, n)
    requires Possible(m.books, EventOps(m, ev), code)
    ensures TookTell(evs + [ev], Run(m.books, h, EventOps(m, ev), code).history, n)
  {
    hide Run, Possible, Right, CallsTell, CountersTell, EndedTook, TookBy, At, EventOps, InOrder, Admissible;
    forall j, e | 0 <= e < n
      ensures At(Run(m.books, h, EventOps(m, ev), code).history.finished, j, e) == EndedTook(evs + [ev], j, e)
    {
      TookKeeps(evs, m, h, ev, n, code, j, e);
      TookOneMore(evs, ev, j, e);
    }
  }

  // ------------------------------------------------------------------ whole runs

  lemma {:induction false} RunOpsConcat(m: Machine, p: seq<Event>, ev: Event, n: nat, code: nat -> Block)
    requires InOrder(m, n) && AllAdmissible(p, n, code) && Admissible(ev, n, code)
    ensures AllAdmissible(p + [ev], n, code)
    ensures RunOps(m, p + [ev], n, code) == RunOps(m, p, n, code) + EventOps(Final(m, p, n, code), ev)
    ensures Final(m, p + [ev], n, code) == Step(Final(m, p, n, code), ev, n, code)
    decreases |p|
  {
    hide InOrder, Admissible, EventOps, Step;
    if p == [] {
      assert p + [ev] == [ev] && [ev][1..] == [];
      StepInOrder(m, ev, n, code);
      assert RunOps(Step(m, ev, n, code), [], n, code) == [];
    } else {
      StepInOrder(m, p[0], n, code);
      assert (p + [ev])[0] == p[0] && (p + [ev])[1..] == p[1..] + [ev];
      RunOpsConcat(Step(m, p[0], n, code), p[1..], ev, n, code);
    }
  }

  lemma {:induction false} StartTells(n: nat, code: nat -> Block)
    ensures Tells([], Start(n), NO_HISTORY, n) && Right(Fresh(Zeros(n)), NO_HISTORY, code)
  {
    FreshIsRight(Zeros(n), code);
    var none: seq<Event> := [];
    assert none[..LatestDump(none)] == none;
  }

  lemma {:induction false} NoEvents(n: nat, code: nat -> Block)
    ensures RunOps(Start(n), [], n, code) == [] && Possible(Fresh(Zeros(n)), [], code)
    ensures FullRun(Zeros(n), [], code) == Outcome(Start(n).books, NO_HISTORY) && Final(Start(n), [], n, code) == Start(n)
  {
  }

  /** After every sequence of events the counters are the sums of the counts, the active calls
      and the totals they were entered with are those told from the events, and every arc has
      taken from its ended calls exactly what was counted between their beginnings and ends. */
  lemma {:induction false} EveryRunTells(evs: seq<Event>, n: nat, code: nat -> Block)
    requires AllAdmissible(evs, n, code)
    ensures var ops, m := RunOps(Start(n), evs, n, code), Final(Start(n), evs, n, code);
            Possible(Fresh(Zeros(n)), ops, code) &&
            var o := FullRun(Zeros(n), ops, code);
            o.books == m.books && Tells(evs, m, o.history, n)
  {
    hide RunOps, Final, Run, Tells, Step, EventOps, Right, InOrder, Possible;
    StartTells(n, code);
    NoEvents(n, code);
    if evs != [] {
      var before, ev := evs[..|evs|-1], evs[|evs|-1];
      assert evs == before + [ev];
      EveryRunTells(before, n, code);
      var m, ops := Final(Start(n), before, n, code), RunOps(Start(n), before, n, code);
      RunOpsConcat(Start(n), before, ev, n, code);
      EventKeeps(before, m, FullRun(Zeros(n), ops, code).history, ev, n, code);
      RunConcat(Fresh(Zeros(n)), NO_HISTORY, ops, EventOps(m, ev), code);
    }
  }

  lemma {:induction false} GatheredIs(b: Books, entered: seq<Cost>, k: nat, j: Arc, e: nat)
    requires |entered| == |b.frames| && k <= |b.frames| && e < |b.cost|
    requires forall i :: 0 <= i < |b.frames| && b.frames[i].jcc.Some? ==> b.frames[i].enter == b.cost
    ensures Gathered(b.frames[..k], entered[..k], j, e) + FramesTook(b.frames, entered, b.cost, k, j, e) ==
            FramesTook(b.frames, entered, b.cost, 0, j, e)
  {
    if k > 0 {
      GatheredIs(b, entered, k - 1, j, e);
      assert b.frames[..k][..k-1] == b.frames[..k-1] && entered[..k][..k-1] == entered[..k-1];
    }
  }

  lemma {:induction false} FlushedTook(b: Books, h: History, code: nat -> Block, j: Arc, e: nat)
    requires Flushed(b, h, code) && e < |b.cost|
    ensures At(h.written, j, e) ==
            if Reached(j, code) then At(h.finished, j, e) + FramesTook(b.frames, h.entered, b.cost, 0, j, e) else 0
  {
    GatheredIs(b, h.entered, |b.frames|, j, e);
    assert b.frames[..|b.frames|] == b.frames && h.entered[..|b.frames|] == h.entered;
  }

  lemma {:induction false} AfterDump(evs: seq<Event>, executed: set<nat>, n: nat, code: nat -> Block, o: Outcome)
    requires AllAdmissible(evs, n, code) && Possible(Fresh(Zeros(n)), RunOps(Start(n), evs, n, code), code)
    requires o == FullRun(Zeros(n), RunOps(Start(n), evs, n, code), code)
    requires o.books == Final(Start(n), evs, n, code).books
    ensures var more := evs + [DumpProfile(executed)];
            AllAdmissible(more, n, code) &&
            var ops := RunOps(Start(n), more, n, code);
            Possible(Fresh(Zeros(n)), ops, code) &&
            var o' := FullRun(Zeros(n), ops, code); Flushed(o'.books, o'.history, code)
  {
    var m, op := Final(Start(n), evs, n, code), DumpOp(executed);
    assert EventOps(m, DumpProfile(executed)) == [op];
    assert Enabled(o.books, op, code);
    FreshIsRight(Zeros(n), code);
    hide RunOps, Final, Run, Step, EventOps, Right, Possible, Flushed, Do, Record, Enabled;
    RunOpsConcat(Start(n), evs, DumpProfile(executed), n, code);
    RunOne(o.books, o.history, op, code);
    RunConcat(Fresh(Zeros(n)), NO_HISTORY, RunOps(Start(n), evs, n, code), [op], code);
    DumpKeeps(o.books, o.history, executed, code);
  }

  /** What has been written after every dump, whatever came before it: for an arc that dumps
      reach, the sum over all its calls, ended or active, of what was counted between their
      beginning and their end or now; and for the others nothing. */
  lemma {:induction false} EveryDumpWrites(evs: seq<Event>, executed: set<nat>, n: nat, code: nat -> Block, j: Arc, e: nat)
    requires AllAdmissible(evs, n, code) && e < n
    ensures var more := evs + [DumpProfile(executed)];
            AllAdmissible(more, n, code) &&
            var ops := RunOps(Start(n), more, n, code);
            Possible(Fresh(Zeros(n)), ops, code) &&
            At(FullRun(Zeros(n), ops, code).history.written, j, e) ==
            if Reached(j, code) then EndedTook(evs, j, e) + Taken(evs, Active(evs), 0, j, e) else 0
  {
    var more := evs + [DumpProfile(executed)];
    EveryRunTells(evs, n, code);
    AfterDump(evs, executed, n, code, FullRun(Zeros(n), RunOps(Start(n), evs, n, code), code));
    EveryRunTells(more, n, code);
    var m, o := Final(Start(n), more, n, code), FullRun(Zeros(n), RunOps(Start(n), more, n, code), code);
    DumpTookSame(evs, executed, j, e);
    hide RunOps, Final, FullRun, Possible, Flushed, At, EndedTook, Taken, Active, Reached;
    FlushedTook(o.books, o.history, code, j, e);
    TookIs(more, m, o.history, n, 0, j, e);
  }

  /** A dump changes neither the active calls nor what they would take. */
  lemma {:induction false} DumpTookSame(evs: seq<Event>, executed: set<nat>, j: Arc, e: nat)
    ensures var more := evs + [DumpProfile(executed)];
            EndedTook(more, j, e) == EndedTook(evs, j, e) && Active(more) == Active(evs) &&
            Taken(more, Active(more), 0, j, e) == Taken(evs, Active(evs), 0, j, e)
  {
    var ev := DumpProfile(executed);
    OneMoreEvent(evs, ev);
    TakenSame(evs, ev, Active(evs), 0, j, e);
  }

  lemma {:induction false} TakenSame(evs: seq<Event>, ev: Event, cs: seq<ActiveCall>, k: nat, j: Arc, e: nat)
    requires k <= |cs| && (forall i :: 0 <= i < |cs| ==> cs[i].at <= |evs|) && !ev.Count?
    ensures Taken(evs + [ev], cs, k, j, e) == Taken(evs, cs, k, j, e)
    decreases |cs| - k
  {
    if k < |cs| {
      TakenSame(evs, ev, cs, k + 1, j, e);
      OneMoreEvent(evs, ev);
      TotalOneMore(evs, ev, e);
    }
  }
}
