/** Callgrind's inclusive costs.  Each active call keeps the event counters at its entry;
    when it returns, the difference to the current counters goes to its jCC (the cost
    centre of the call arc).  A dump adds what active calls have gathered so far, walks the
    blocks with something to report, writes out the costs of the jCCs it comes across and
    clears them.  Shown here: over every run of charges, calls, returns and dumps, each call
    contributes exactly its own difference; a dump leaves nothing unwritten of the arcs its
    walk reaches, and what goes through the others is never written. */
module CallCosts {
  import opened Arith
  import opened Options
  import opened ExecCounts

  /** Event counters, one per event of the full event set. */
  type Cost = seq<nat>

  /** A call arc: the calling cost centre, the exit of its block, and the callee. */
  datatype Arc = Arc(from: nat, exit: nat, to: nat)

  /** An entry of the shadow stack; a skipped call has no jCC. */
  datatype Frame = Frame(jcc: Option<Arc>, enter: Cost, sp: nat, ret: nat)

  /** `cost` is the running total, `jccs` the cost of each jCC (allocated when first
      needed), `returned` the callers whose return counter is not zero. */
  datatype Books = Books(cost: Cost, frames: seq<Frame>, jccs: map<Arc, Cost>, returned: set<nat>)

  function At(m: map<Arc, Cost>, j: Arc, e: nat): (v: nat)
  {
    if j in m && e < |m[j]| then m[j][e] else 0
  }

  predicate AtLeast(big: Cost, small: Cost)
  {
    |big| == |small| && forall e :: 0 <= e < |big| ==> small[e] <= big[e]
  }

  lemma {:induction false} AtLeastTrans(a: Cost, b: Cost, c: Cost)
    requires AtLeast(a, b) && AtLeast(b, c)
    ensures AtLeast(a, c)
  {
  }

  function Plus(a: Cost, b: Cost): (r: Cost)
    requires |a| == |b|
    ensures |r| == |a| && forall e :: 0 <= e < |r| ==> r[e] == a[e] + b[e]
  {
    seq(|a|, e requires 0 <= e < |a| => a[e] + b[e])
  }

  function Minus(a: Cost, b: Cost): (r: Cost)
    requires AtLeast(a, b)
    ensures |r| == |a| && forall e :: 0 <= e < |r| ==> r[e] == a[e] - b[e]
  {
    seq(|a|, e requires 0 <= e < |a| => a[e] - b[e])
  }

  /** A jCC's cost as a vector of length `n`, all zero if not yet allocated. */
  function CostOf(jccs: map<Arc, Cost>, j: Arc, n: nat): (c: Cost)
    ensures |c| == n && forall e :: 0 <= e < n ==> c[e] == At(jccs, j, e)
  {
    seq(n, e requires 0 <= e => At(jccs, j, e))
  }

  /** `add_diff_cost_lz`: add what was gathered since `old` to a jCC. */
  function AddDiff(jccs: map<Arc, Cost>, j: Arc, old': Cost, now: Cost): (r: map<Arc, Cost>)
    requires AtLeast(now, old')
    ensures forall i, e :: 0 <= e < |now| ==>
              At(r, i, e) == At(jccs, i, e) + if i == j then now[e] - old'[e] else 0
    ensures forall i :: i in r <==> i in jccs || i == j
    ensures forall i :: i in jccs && i != j ==> r[i] == jccs[i]
    ensures |r[j]| == |now|
  {
    jccs[j := Plus(CostOf(jccs, j, |now|), Minus(now, old'))]
  }

  // ------------------------------------------------------------------ the steps

  ghost predicate Sound(b: Books)
  {
    (forall i :: 0 <= i < |b.frames| && b.frames[i].jcc.Some? ==> AtLeast(b.cost, b.frames[i].enter)) &&
    (forall j :: j in b.jccs ==> |b.jccs[j]| == |b.cost|)
  }

  function Charge(b: Books, delta: Cost): (r: Books)
    requires |delta| == |b.cost|
  {
    b.(cost := Plus(b.cost, delta))
  }

  /** Push a call; `enter` is the current cost, or an earlier one for a call that is
      thought to have lasted since then. */
  function Push(b: Books, f: Frame): (r: Books)
  {
    b.(frames := b.frames + [f])
  }

  /** Pop the top call. */
  function Pop(b: Books): (r: Books)
    requires Sound(b) && b.frames != []
    ensures Sound(r) && r.frames == b.frames[..|b.frames|-1] && r.cost == b.cost
  {
    var top, rest := b.frames[|b.frames|-1], b.frames[..|b.frames|-1];
    if top.jcc.None? then b.(frames := rest)
    else
      var j := top.jcc.value;
      Books(b.cost, rest, AddDiff(b.jccs, j, top.enter, b.cost),
            if top.enter == b.cost then b.returned else b.returned + {j.from})
  }

  /** Bring the jCC of the active call at `i` up to date. */
  function Settle(b: Books, i: nat): (r: Books)
    requires Sound(b) && i < |b.frames|
    ensures Sound(r) && |r.frames| == |b.frames| && r.cost == b.cost && r.returned == b.returned
    ensures forall k :: 0 <= k < |b.frames| ==> r.frames[k].(enter := []) == b.frames[k].(enter := [])
    ensures forall k :: 0 <= k < |b.frames| && k != i ==> r.frames[k] == b.frames[k]
    ensures b.frames[i].jcc.Some? ==> r.frames[i].enter == b.cost
  {
    var f := b.frames[i];
    if f.jcc.None? then b
    else b.(jccs := AddDiff(b.jccs, f.jcc.value, f.enter, b.cost), frames := b.frames[i := f.(enter := b.cost)])
  }

  function SettleFrom(b: Books, i: nat): (r: Books)
    requires Sound(b) && i <= |b.frames|
    ensures Sound(r) && |r.frames| == |b.frames| && r.cost == b.cost && r.returned == b.returned
    ensures forall k :: 0 <= k < |b.frames| ==> r.frames[k].(enter := []) == b.frames[k].(enter := [])
    decreases |b.frames| - i
  {
    if i == |b.frames| then b else SettleFrom(Settle(b, i), i + 1)
  }

  /** The callers a dump visits: those executed or returned to since the last dump, and
      those with an active call. */
  function Visited(b: Books, executed: set<nat>): (v: set<nat>)
    ensures forall i :: 0 <= i < |b.frames| && b.frames[i].jcc.Some? ==> b.frames[i].jcc.value.from in v
  {
    executed + b.returned + set i | 0 <= i < |b.frames| && b.frames[i].jcc.Some? :: b.frames[i].jcc.value.from
  }

  /** Does the walk over the caller's block reach the arc's list?  `code` gives the block of
      each cost centre. */
  predicate Reached(j: Arc, code: nat -> Block)
  {
    j.exit <= Stop(code(j.from))
  }

  /** The jCCs a dump writes: those of the visited callers that the walk reaches. */
  predicate Due(j: Arc, visited: set<nat>, code: nat -> Block)
  {
    j.from in visited && Reached(j, code)
  }

  /** Write out and clear the jCCs that are due. */
  function Clear(b: Books, executed: set<nat>, code: nat -> Block): (r: Books)
    requires Sound(b)
    ensures Sound(r) && r.frames == b.frames && r.cost == b.cost && r.jccs.Keys == b.jccs.Keys
    ensures forall j, e :: 0 <= e < |b.cost| ==>
              At(r.jccs, j, e) == if Due(j, Visited(b, executed), code) then 0 else At(b.jccs, j, e)
  {
    b.(jccs := Cleared(b.jccs, Visited(b, executed), code, |b.cost|), returned := {})
  }

  function Cleared(jccs: map<Arc, Cost>, visited: set<nat>, code: nat -> Block, n: nat): (r: map<Arc, Cost>)
    ensures r.Keys == jccs.Keys
  {
    map j | j in jccs :: if Due(j, visited, code) then Zeros(n) else jccs[j]
  }

  function Dump(b: Books, executed: set<nat>, code: nat -> Block): (r: Books)
    requires Sound(b)
    ensures Sound(r)
  {
    Clear(SettleFrom(b, 0), executed, code)
  }

  // ------------------------------------------------------------------ what really happened

  /** The true history: the total at the entry of each active call, the sum of the exact
      contributions of finished calls per jCC, and what dumps have written per jCC. */
  datatype History = History(entered: seq<Cost>, finished: map<Arc, Cost>, written: map<Arc, Cost>)

  /** What an active call has gathered up to its recorded counters. */
  function Gathered(frames: seq<Frame>, entered: seq<Cost>, j: Arc, e: nat): (v: int)
    requires |frames| == |entered|
    decreases |frames|
  {
    if frames == [] then 0
    else
      var k := |frames| - 1;
      Gathered(frames[..k], entered[..k], j, e) + Own(frames[k], entered[k], j, e)
  }

  function Own(f: Frame, entered: Cost, j: Arc, e: nat): (v: int)
  {
    if f.jcc == Some(j) && e < |f.enter| && e < |entered| then
      var now: int := f.enter[e]; now - entered[e]
    else 0
  }

  /** For every jCC and event, what was written plus what it still holds is what finished
      calls took plus what active calls had gathered when last settled. */
  ghost predicate Balanced(b: Books, h: History)
  {
    Sound(b) && |h.entered| == |b.frames| &&
    (forall i :: 0 <= i < |b.frames| && b.frames[i].jcc.Some? ==> AtLeast(b.frames[i].enter, h.entered[i])) &&
    forall j, e :: 0 <= e < |b.cost| ==>
      At(h.written, j, e) + At(b.jccs, j, e) == At(h.finished, j, e) + Gathered(b.frames, h.entered, j, e)
  }

  /** Every jCC with cost that a dump can reach belongs to a marked caller. */
  ghost predicate Marked(b: Books, marked: set<nat>, code: nat -> Block)
  {
    forall j, e :: 0 <= e < |b.cost| && At(b.jccs, j, e) > 0 && Reached(j, code) ==> j.from in marked
  }

  /** The arc leaves its block at one of its exits. */
  predicate Fits(j: Arc, code: nat -> Block)
  {
    j.exit <= |code(j.from).exits|
  }

  ghost predicate AllFit(b: Books, code: nat -> Block)
  {
    (forall i :: 0 <= i < |b.frames| && b.frames[i].jcc.Some? ==> Fits(b.frames[i].jcc.value, code)) &&
    forall j :: j in b.jccs ==> Fits(j, code)
  }

  /** Nothing was written of the arcs that no dump reaches. */
  ghost predicate OnlyReached(h: History, code: nat -> Block)
  {
    forall j, e :: !Reached(j, code) ==> At(h.written, j, e) == 0
  }

  /** The books are right: they balance, what can be written is marked for the next dump, and
      nothing else has been. */
  ghost predicate Right(b: Books, h: History, code: nat -> Block)
  {
    Balanced(b, h) && Marked(b, b.returned, code) && AllFit(b, code) && OnlyReached(h, code)
  }

  /** One step of a run. */
  datatype Op = ChargeOp(delta: Cost) | PushOp(f: Frame) | PopOp | DumpOp(executed: set<nat>)

  ghost predicate Enabled(b: Books, op: Op, code: nat -> Block)
  {
    match op
    case ChargeOp(delta) => |delta| == |b.cost|
    case PushOp(f) => f.jcc.Some? ==> AtLeast(b.cost, f.enter) && Fits(f.jcc.value, code)
    case PopOp => b.frames != []
    case DumpOp(_) => true
  }

  function Do(b: Books, op: Op, code: nat -> Block): (r: Books)
    requires Sound(b) && Enabled(b, op, code)
  {
    match op
    case ChargeOp(delta) => Charge(b, delta)
    case PushOp(f) => Push(b, f)
    case PopOp => Pop(b)
    case DumpOp(executed) => Dump(b, executed, code)
  }

  function AddTo(m: map<Arc, Cost>, j: Arc, c: Cost): (r: map<Arc, Cost>)
    ensures forall i, e :: 0 <= e < |c| ==> At(r, i, e) == At(m, i, e) + if i == j then c[e] else 0
  {
    m[j := Plus(CostOf(m, j, |c|), c)]
  }

  /** The history after a step: a finished call contributes the total at its return minus
      the total at its entry; a dump writes what the jCCs it clears hold. */
  function Record(h: History, b: Books, op: Op, code: nat -> Block): (r: History)
    requires Sound(b) && Enabled(b, op, code) && |h.entered| == |b.frames|
    requires forall i :: 0 <= i < |b.frames| && b.frames[i].jcc.Some? ==> AtLeast(b.frames[i].enter, h.entered[i])
  {
    match op
    case ChargeOp(_) => h
    case PushOp(f) => h.(entered := h.entered + [f.enter])
    case PopOp =>
      var k := |b.frames| - 1;
      var h' := h.(entered := h.entered[..k]);
      if b.frames[k].jcc.None? then h'
      else
        AtLeastTrans(b.cost, b.frames[k].enter, h.entered[k]);
        h'.(finished := AddTo(h.finished, b.frames[k].jcc.value, Minus(b.cost, h.entered[k])))
    case DumpOp(executed) => h.(written := WriteOut(h.written, SettleFrom(b, 0), executed, code))
  }

  /** Add to `written` the cost of every jCC a dump clears. */
  function WriteOut(written: map<Arc, Cost>, b: Books, executed: set<nat>, code: nat -> Block): (r: map<Arc, Cost>)
    requires Sound(b)
    ensures forall j, e :: 0 <= e < |b.cost| ==>
              At(r, j, e) == At(written, j, e) + if Due(j, Visited(b, executed), code) then At(b.jccs, j, e) else 0
    ensures forall j :: j in r ==> |r[j]| == |b.cost|
  {
    map j | j in written.Keys + b.jccs.Keys ::
      if Due(j, Visited(b, executed), code)
      then Plus(CostOf(written, j, |b.cost|), CostOf(b.jccs, j, |b.cost|)) else CostOf(written, j, |b.cost|)
  }

  // ------------------------------------------------------------------ sums over active calls

  lemma {:induction false} GatheredPush(frames: seq<Frame>, entered: seq<Cost>, f: Frame, c: Cost, j: Arc, e: nat)
    requires |frames| == |entered|
    ensures Gathered(frames + [f], entered + [c], j, e) == Gathered(frames, entered, j, e) + Own(f, c, j, e)
  {
    assert (frames + [f])[..|frames|] == frames && (entered + [c])[..|frames|] == entered;
  }

  lemma {:induction false} GatheredUpdate(frames: seq<Frame>, entered: seq<Cost>, i: nat, f: Frame, j: Arc, e: nat)
    requires |frames| == |entered| && i < |frames|
    ensures Gathered(frames[i := f], entered, j, e) ==
            Gathered(frames, entered, j, e) - Own(frames[i], entered[i], j, e) + Own(f, entered[i], j, e)
    decreases |frames|
  {
    var k := |frames| - 1;
    if i < k {
      assert frames[i := f][..k] == frames[..k][i := f];
      GatheredUpdate(frames[..k], entered[..k], i, f, j, e);
    } else {
      assert frames[i := f][..k] == frames[..k];
    }
  }

  // ------------------------------------------------------------------ every step keeps the books right

  lemma {:induction false} PushKeeps(b: Books, h: History, f: Frame, code: nat -> Block)
    requires Right(b, h, code) && Enabled(b, PushOp(f), code)
    ensures Right(Do(b, PushOp(f), code), Record(h, b, PushOp(f), code), code)
  {
    forall j, e | 0 <= e < |b.cost|
      ensures Gathered(b.frames + [f], h.entered + [f.enter], j, e) == Gathered(b.frames, h.entered, j, e)
    {
      GatheredPush(b.frames, h.entered, f, f.enter, j, e);
    }
  }

  lemma {:induction false} GatheredPop(frames: seq<Frame>, entered: seq<Cost>, j: Arc, e: nat)
    requires |frames| == |entered| && frames != []
    ensures var k := |frames| - 1;
            Gathered(frames, entered, j, e) == Gathered(frames[..k], entered[..k], j, e) + Own(frames[k], entered[k], j, e)
  {
  }

  /** The return of a call that has a jCC. */
  lemma {:induction false} PopCounts(b: Books, h: History, code: nat -> Block, j: Arc, e: nat)
    requires Right(b, h, code) && b.frames != [] && e < |b.cost|
    ensures var b', h' := Pop(b), Record(h, b, PopOp, code);
            |h'.entered| == |b'.frames| &&
            At(h'.written, j, e) + At(b'.jccs, j, e) == At(h'.finished, j, e) + Gathered(b'.frames, h'.entered, j, e)
  {
    var k := |b.frames| - 1;
    var f := b.frames[k];
    GatheredPop(b.frames, h.entered, j, e);
    assert At(h.written, j, e) + At(b.jccs, j, e) == At(h.finished, j, e) + Gathered(b.frames, h.entered, j, e);
    if f.jcc.Some? {
      AtLeastTrans(b.cost, f.enter, h.entered[k]);
    }
  }

  lemma {:induction false} PopMarks(b: Books, h: History, code: nat -> Block)
    requires Right(b, h, code) && b.frames != []
    ensures Marked(Pop(b), Pop(b).returned, code) && AllFit(Pop(b), code)
  {
    var b' := Pop(b);
    forall j: Arc, e: nat | e < |b.cost| && At(b'.jccs, j, e) > 0 && Reached(j, code) ensures j.from in b'.returned {
      assert At(b.jccs, j, e) > 0 ==> j.from in b.returned;
    }
  }

  lemma {:induction false} PopKeeps(b: Books, h: History, code: nat -> Block)
    requires Right(b, h, code) && b.frames != []
    ensures Right(Do(b, PopOp, code), Record(h, b, PopOp, code), code)
  {
    var b', h' := Pop(b), Record(h, b, PopOp, code);
    PopMarks(b, h, code);
    forall j, e | 0 <= e < |b.cost|
      ensures At(h'.written, j, e) + At(b'.jccs, j, e) == At(h'.finished, j, e) + Gathered(b'.frames, h'.entered, j, e)
    {
      PopCounts(b, h, code, j, e);
    }
  }

  lemma {:induction false} SettleKeeps(b: Books, h: History, i: nat)
    requires Balanced(b, h) && i < |b.frames|
    ensures Balanced(Settle(b, i), h)
  {
    var f, b' := b.frames[i], Settle(b, i);
    if f.jcc.Some? {
      AtLeastTrans(b.cost, f.enter, h.entered[i]);
      forall j, e | 0 <= e < |b.cost|
        ensures At(h.written, j, e) + At(b'.jccs, j, e) == At(h.finished, j, e) + Gathered(b'.frames, h.entered, j, e)
      {
        GatheredUpdate(b.frames, h.entered, i, f.(enter := b.cost), j, e);
      }
    }
  }

  lemma {:induction false} SettleFromBalanced(b: Books, h: History, i: nat)
    requires Balanced(b, h) && i <= |b.frames|
    ensures Balanced(SettleFrom(b, i), h)
    decreases |b.frames| - i
  {
    if i < |b.frames| {
      SettleKeeps(b, h, i);
      SettleFromBalanced(Settle(b, i), h, i + 1);
    }
  }

  ghost predicate ActiveMarked(b: Books, marked: set<nat>)
  {
    forall k :: 0 <= k < |b.frames| && b.frames[k].jcc.Some? ==> b.frames[k].jcc.value.from in marked
  }

  lemma {:induction false} SettleMarked(b: Books, i: nat, marked: set<nat>, code: nat -> Block)
    requires Sound(b) && i < |b.frames| && Marked(b, marked, code) && ActiveMarked(b, marked) && AllFit(b, code)
    ensures var b' := Settle(b, i); Marked(b', marked, code) && ActiveMarked(b', marked) && AllFit(b', code)
  {
    var b' := Settle(b, i);
    forall j: Arc, e: nat | e < |b.cost| && At(b'.jccs, j, e) > 0 && Reached(j, code) ensures j.from in marked {
      assert At(b.jccs, j, e) > 0 || b.frames[i].jcc == Some(j);
    }
  }

  /** Cost appears only in jCCs that had some before or belong to an active call. */
  lemma {:induction false} SettleFromMarked(b: Books, i: nat, marked: set<nat>, code: nat -> Block)
    requires Sound(b) && i <= |b.frames| && Marked(b, marked, code) && ActiveMarked(b, marked) && AllFit(b, code)
    ensures Marked(SettleFrom(b, i), marked, code) && AllFit(SettleFrom(b, i), code)
    decreases |b.frames| - i
  {
    if i < |b.frames| {
      SettleMarked(b, i, marked, code);
      SettleFromMarked(Settle(b, i), i + 1, marked, code);
    }
  }

  /** The first `i` calls are counted up to now. */
  ghost predicate SettledTo(b: Books, i: nat)
  {
    i <= |b.frames| && forall k :: 0 <= k < i && b.frames[k].jcc.Some? ==> b.frames[k].enter == b.cost
  }

  lemma {:induction false} SettleFromSettles(b: Books, i: nat)
    requires Sound(b) && SettledTo(b, i)
    ensures SettledTo(SettleFrom(b, i), |b.frames|)
    decreases |b.frames| - i
  {
    if i < |b.frames| {
      SettleFromSettles(Settle(b, i), i + 1);
    }
  }

  /** Settling changes neither the calls on the stack nor who was returned to. */
  lemma {:induction false} SameVisited(b: Books, s: Books, executed: set<nat>)
    requires |s.frames| == |b.frames| && s.returned == b.returned
    requires forall k :: 0 <= k < |b.frames| ==> s.frames[k].jcc == b.frames[k].jcc
    ensures Visited(s, executed) == Visited(b, executed)
  {
    assert forall k :: 0 <= k < |b.frames| && b.frames[k].jcc.Some? ==> s.frames[k].jcc.Some?;
  }

  /** Of the arcs a dump reaches nothing is left to write: each jCC is clear and all that its
      finished and active calls ever took has been written.  Of the others nothing has been
      written: all of it is still held.  Every active call is counted up to now. */
  ghost predicate Flushed(b: Books, h: History, code: nat -> Block)
  {
    |h.entered| == |b.frames| &&
    (forall i :: 0 <= i < |b.frames| && b.frames[i].jcc.Some? ==> b.frames[i].enter == b.cost) &&
    forall j, e :: 0 <= e < |b.cost| ==>
      var taken := At(h.finished, j, e) + Gathered(b.frames, h.entered, j, e);
      if Reached(j, code) then At(b.jccs, j, e) == 0 && At(h.written, j, e) == taken
      else At(b.jccs, j, e) == taken && At(h.written, j, e) == 0
  }

  /** Writing out and clearing settled books. */
  lemma {:induction false} ClearFlushes(s: Books, h: History, executed: set<nat>, code: nat -> Block)
    requires Balanced(s, h) && Marked(s, Visited(s, executed), code) && SettledTo(s, |s.frames|)
    requires AllFit(s, code) && OnlyReached(h, code)
    ensures var b', h' := Clear(s, executed, code), h.(written := WriteOut(h.written, s, executed, code));
            Right(b', h', code) && Flushed(b', h', code)
  {
    var b', h' := Clear(s, executed, code), h.(written := WriteOut(h.written, s, executed, code));
    forall j: Arc, e: nat | e < |s.cost|
      ensures Reached(j, code) ==> At(b'.jccs, j, e) == 0 && At(h'.written, j, e) == At(h.written, j, e) + At(s.jccs, j, e)
      ensures !Reached(j, code) ==> At(b'.jccs, j, e) == At(s.jccs, j, e) && At(h'.written, j, e) == 0
    {
      assert At(s.jccs, j, e) > 0 && Reached(j, code) ==> j.from in Visited(s, executed);
    }
  }

  lemma {:induction false} DumpKeeps(b: Books, h: History, executed: set<nat>, code: nat -> Block)
    requires Right(b, h, code)
    ensures var op := DumpOp(executed);
            var b', h' := Do(b, op, code), Record(h, b, op, code);
            Right(b', h', code) && Flushed(b', h', code)
  {
    var s := SettleFrom(b, 0);
    SettleFromBalanced(b, h, 0);
    SettleFromMarked(b, 0, Visited(b, executed), code);
    SettleFromSettles(b, 0);
    SameVisited(b, s, executed);
    ClearFlushes(s, h, executed, code);
  }

  lemma {:induction false} StepKeeps(b: Books, h: History, op: Op, code: nat -> Block)
    requires Right(b, h, code) && Enabled(b, op, code)
    ensures Right(Do(b, op, code), Record(h, b, op, code), code)
  {
    match op
    case ChargeOp(_) =>
    case PushOp(f) => PushKeeps(b, h, f, code);
    case PopOp => PopKeeps(b, h, code);
    case DumpOp(executed) => DumpKeeps(b, h, executed, code);
  }

  // ------------------------------------------------------------------ whole runs

  /** A run: each operation is possible where it happens. */
  ghost predicate Possible(b: Books, ops: seq<Op>, code: nat -> Block)
    decreases |ops|
  {
    ops == [] || (Sound(b) && Enabled(b, ops[0], code) && Possible(Do(b, ops[0], code), ops[1..], code))
  }

  datatype Outcome = Outcome(books: Books, history: History)

  function Run(b: Books, h: History, ops: seq<Op>, code: nat -> Block): (o: Outcome)
    requires Right(b, h, code) && Possible(b, ops, code)
    ensures Right(o.books, o.history, code)
    decreases |ops|
  {
    if ops == [] then Outcome(b, h)
    else
      StepKeeps(b, h, ops[0], code);
      Run(Do(b, ops[0], code), Record(h, b, ops[0], code), ops[1..], code)
  }

  const NO_HISTORY := History([], map[], map[])

  function Fresh(cost: Cost): (b: Books)
  {
    Books(cost, [], map[], {})
  }

  lemma {:induction false} FreshIsRight(cost: Cost, code: nat -> Block)
    ensures Right(Fresh(cost), NO_HISTORY, code)
  {
  }

  /** A run from the start: after it, as after every run, the books are right. */
  function FullRun(cost: Cost, ops: seq<Op>, code: nat -> Block): (o: Outcome)
    requires Possible(Fresh(cost), ops, code)
    ensures Right(o.books, o.history, code)
  {
    FreshIsRight(cost, code);
    Run(Fresh(cost), NO_HISTORY, ops, code)
  }

  /** Over every run, once no call is active, what was written plus what is still held is
      exactly the sum of (total at return - total at entry) over all calls of each jCC:
      dumps on the way neither lose nor double anything, and write nothing of arcs that they
      do not reach. */
  lemma {:induction false} EveryCallCountedOnce(cost: Cost, ops: seq<Op>, code: nat -> Block, j: Arc, e: nat)
    requires Possible(Fresh(cost), ops, code) && e < |cost| && FullRun(cost, ops, code).books.frames == []
    ensures var o := FullRun(cost, ops, code);
            At(o.history.written, j, e) + At(o.books.jccs, j, e) == At(o.history.finished, j, e) &&
            (!Reached(j, code) ==> At(o.history.written, j, e) == 0)
  {
    FreshIsRight(cost, code);
    RunLength(Fresh(cost), NO_HISTORY, ops, code);
  }

  lemma {:induction false} RunLength(b: Books, h: History, ops: seq<Op>, code: nat -> Block)
    requires Right(b, h, code) && Possible(b, ops, code)
    ensures |Run(b, h, ops, code).books.cost| == |b.cost|
    decreases |ops|
  {
    if ops != [] {
      StepKeeps(b, h, ops[0], code);
      RunLength(Do(b, ops[0], code), Record(h, b, ops[0], code), ops[1..], code);
    }
  }

  // ------------------------------------------------------------------ when a dump leaves nothing

  /** After the run, a dump leaves no cost in any jCC. */
  ghost predicate LeavesNothing(cost: Cost, ops: seq<Op>, executed: set<nat>, code: nat -> Block)
    requires Possible(Fresh(cost), ops, code)
  {
    var b := FullRun(cost, ops, code).books;
    forall j, e :: 0 <= e < |b.cost| ==> At(Dump(b, executed, code).jccs, j, e) == 0
  }

  ghost predicate DumpsLeaveNothing(code: nat -> Block)
  {
    forall cost, ops, executed ::
      Possible(Fresh(cost), ops, code) ==> LeavesNothing(cost, ops, executed, code)
  }

  /** A call over the arc `j` during which one event happens. */
  function CallOnce(j: Arc): (ops: seq<Op>)
  {
    [PushOp(Frame(Some(j), [0], 0, 0)), ChargeOp([1]), PopOp]
  }

  lemma {:induction false} RunCons(b: Books, h: History, op: Op, ops: seq<Op>, code: nat -> Block)
    requires Right(b, h, code) && Enabled(b, op, code) && Possible(Do(b, op, code), ops, code)
    ensures Possible(b, [op] + ops, code)
    ensures Right(Do(b, op, code), Record(h, b, op, code), code)
    ensures Run(b, h, [op] + ops, code) == Run(Do(b, op, code), Record(h, b, op, code), ops, code)
  {
    StepKeeps(b, h, op, code);
    assert ([op] + ops)[1..] == ops;
  }

  /** The books during that call, and after it. */
  function Calling(j: Arc, cost: Cost): (b: Books)
  {
    Books(cost, [Frame(Some(j), [0], 0, 0)], map[], {})
  }

  function Called(j: Arc): (b: Books)
  {
    Books([1], [], map[j := [1]], {j.from})
  }

  lemma {:induction false} CallBegins(j: Arc, code: nat -> Block)
    requires Fits(j, code)
    ensures Enabled(Fresh([0]), CallOnce(j)[0], code) && Sound(Calling(j, [0])) && Sound(Calling(j, [1]))
    ensures Do(Fresh([0]), CallOnce(j)[0], code) == Calling(j, [0])
    ensures Do(Calling(j, [0]), CallOnce(j)[1], code) == Calling(j, [1])
  {
    assert Plus([0], [1]) == [1];
  }

  lemma {:induction false} CallEnds(j: Arc, code: nat -> Block)
    requires Sound(Calling(j, [1]))
    ensures Do(Calling(j, [1]), CallOnce(j)[2], code) == Called(j)
  {
    assert Plus(CostOf(map[], j, 1), Minus([1], [0])) == [1];
  }

  lemma {:induction false} RunOfTwo(b: Books, h: History, p: Op, q: Op, code: nat -> Block)
    requires Right(b, h, code) && Enabled(b, p, code) && Sound(Do(b, p, code)) && Enabled(Do(b, p, code), q, code)
    ensures Possible(b, [p, q], code) && Run(b, h, [p, q], code).books == Do(Do(b, p, code), q, code)
  {
    var b' := Do(b, p, code);
    StepKeeps(b, h, p, code);
    RunCons(b', Record(h, b, p, code), q, [], code);
    RunCons(b, h, p, [q] + [], code);
    assert [p, q] == [p] + ([q] + []);
  }

  lemma {:induction false} CallOnceHolds(j: Arc, code: nat -> Block)
    requires Fits(j, code)
    ensures Possible(Fresh([0]), CallOnce(j), code)
    ensures FullRun([0], CallOnce(j), code).books == Called(j)
  {
    hide Do, Record, Run, Possible, Marked, AllFit, OnlyReached;
    var ops, b := CallOnce(j), Fresh([0]);
    CallBegins(j, code);
    CallEnds(j, code);
    FreshIsRight([0], code);
    var h := Record(NO_HISTORY, b, ops[0], code);
    StepKeeps(b, NO_HISTORY, ops[0], code);
    RunOfTwo(Calling(j, [0]), h, ops[1], ops[2], code);
    RunCons(b, NO_HISTORY, ops[0], [ops[1], ops[2]], code);
    assert ops == [ops[0]] + [ops[1], ops[2]];
  }

  /** What goes through an arc that dumps do not reach is not written. */
  lemma {:induction false} UnreachedStays(j: Arc, executed: set<nat>, code: nat -> Block)
    requires Fits(j, code) && !Reached(j, code)
    ensures Possible(Fresh([0]), CallOnce(j), code) && !LeavesNothing([0], CallOnce(j), executed, code)
  {
    CallOnceHolds(j, code);
    var b := FullRun([0], CallOnce(j), code).books;
    assert SettleFrom(b, 0) == b;
    assert At(b.jccs, j, 0) == 1;
    assert At(Dump(b, executed, code).jccs, j, 0) == 1;
  }

  lemma {:induction false} AllReachedLeavesNothing(cost: Cost, ops: seq<Op>, executed: set<nat>, code: nat -> Block)
    requires Possible(Fresh(cost), ops, code) && forall j :: Fits(j, code) ==> Reached(j, code)
    ensures LeavesNothing(cost, ops, executed, code)
  {
    var o := FullRun(cost, ops, code);
    DumpKeeps(o.books, o.history, executed, code);
  }

  /** Every dump after every run leaves nothing unwritten if and only if the exits of every
      block are strictly increasing. */
  lemma {:induction false} DumpFlushesIff(code: nat -> Block)
    requires forall c :: code(c).Valid()
    ensures DumpsLeaveNothing(code) <==> forall c :: Increasing(code(c))
  {
    if forall c :: Increasing(code(c)) {
      forall j | Fits(j, code) ensures Reached(j, code) { AllReachedIff(code(j.from)); }
      forall cost: Cost, ops: seq<Op>, executed: set<nat> | Possible(Fresh(cost), ops, code)
        ensures LeavesNothing(cost, ops, executed, code)
      {
        AllReachedLeavesNothing(cost, ops, executed, code);
      }
    } else {
      var c :| !Increasing(code(c));
      AllReachedIff(code(c));
      UnreachedStays(Arc(c, |code(c).exits|, 0), {}, code);
    }
  }

  lemma {:induction false} RepeatedExitStops()
    ensures Stop(Block(5, [2, 2], 4)) == 1 && Stop(Block(3, [2, 2], 2)) == 1
  {
    var bb := Block(5, [2, 2], 4);
    assert StopFrom(bb, 3, 1) == StopFrom(bb, 4, 1) == StopFrom(bb, 5, 1) == 1;
    assert StopFrom(bb, 0, 0) == StopFrom(bb, 1, 0) == StopFrom(bb, 2, 0) == StopFrom(bb, 3, 1);
    var cc := Block(3, [2, 2], 2);
    assert StopFrom(cc, 0, 0) == StopFrom(cc, 1, 0) == StopFrom(cc, 2, 0) == StopFrom(cc, 3, 1) == 1;
  }

  /** Two side exits at one instruction, the last one or not, and a call at the final exit:
      the walk stops at the second side exit, and the call's cost is not written. */
  lemma {:induction false} RepeatedExitKeepsCall(code: nat -> Block, executed: set<nat>)
    requires code(0) == Block(5, [2, 2], 4) || code(0) == Block(3, [2, 2], 2)
    ensures Possible(Fresh([0]), CallOnce(Arc(0, 2, 1)), code)
    ensures !LeavesNothing([0], CallOnce(Arc(0, 2, 1)), executed, code)
  {
    RepeatedExitStops();
    UnreachedStays(Arc(0, 2, 1), executed, code);
  }
}
