/** Execution counts of a basic block.  At run time a block counts its executions and, per
    exit, how often it was left there; an execution leaving at an exit costs that exit's
    instruction index plus one.  At dump time per-instruction counts are rebuilt by walking
    the instructions and subtracting each side exit's counter after its instruction.  The
    two totals agree for every execution history exactly when the walk meets every exit in
    front of the last instruction.  The same walk writes the lists of call arcs, one list
    per exit; it reaches them all exactly when the exits are strictly increasing. */
module ExecCounts {

  /** `instrs` instructions; `exits[i]` is the instruction of side exit `i`, and `end` that
      of the final exit: the last one, unless the last side exit was found to be inverted
      and changed places with it. */
  datatype Block = Block(instrs: nat, exits: seq<nat>, end: nat)
  {
    predicate Valid() { end < instrs && forall i :: 0 <= i < |exits| ==> exits[i] < instrs }

    /** Instruction at which exit `p` leaves; `|exits|` stands for the final exit. */
    function ExitAt(p: nat): (i: nat)
      requires Valid() && p <= |exits|
      ensures i < instrs
    {
      if p < |exits| then exits[p] else end
    }
  }

  /** Every side exit in front of the last instruction comes at a later instruction than
      the exits before it, and the final exit is at the last instruction. */
  predicate Ordered(bb: Block)
  {
    bb.end == bb.instrs - 1 &&
    forall a, b :: 0 <= a < b < |bb.exits| && bb.exits[b] < bb.instrs - 1 ==> bb.exits[a] < bb.exits[b]
  }

  /** Instructions executed over a history of exits taken. */
  function Executed(bb: Block, history: seq<nat>): (n: nat)
    requires bb.Valid() && forall k :: 0 <= k < |history| ==> history[k] <= |bb.exits|
  {
    if history == [] then 0
    else Executed(bb, history[..|history|-1]) + bb.ExitAt(history[|history|-1]) + 1
  }

  /** How often exit `p` was taken. */
  function Count(history: seq<nat>, p: nat): (n: nat)
    ensures n <= |history|
  {
    if history == [] then 0
    else Count(history[..|history|-1], p) + if history[|history|-1] == p then 1 else 0
  }

  function Counts(history: seq<nat>, n: nat): (c: seq<nat>)
    ensures |c| == n && forall p :: 0 <= p < n ==> c[p] == Count(history, p)
  {
    seq(n, p requires 0 <= p => Count(history, p))
  }

  /** The dump's walk from instruction `k` on: `e` is the running counter, `j` the next side
      exit, `c` the side exit counters. */
  function Walk(bb: Block, c: seq<nat>, e: int, k: nat, j: nat): (total: int)
    requires |c| == |bb.exits| && k <= bb.instrs && j <= |c|
    decreases bb.instrs - k
  {
    if k == bb.instrs then 0
    else if j < |c| && bb.exits[j] == k then e + Walk(bb, c, e - c[j], k + 1, j + 1)
    else e + Walk(bb, c, e, k + 1, j)
  }

  /** Instruction count as dumped after a history. */
  function Dumped(bb: Block, history: seq<nat>): (total: int)
  {
    Walk(bb, Counts(history, |bb.exits|), |history|, 0, 0)
  }

  // ------------------------------------------------------------------ ordered exits: totals agree

  /** The walk at instruction `k` has consumed exactly the side exits before `k`. */
  ghost predicate InStep(bb: Block, k: nat, j: nat)
  {
    j <= |bb.exits| && forall a :: j <= a < |bb.exits| ==> bb.exits[a] >= k
  }

  lemma {:induction false} InStepKept(bb: Block, k: nat, j: nat)
    requires Ordered(bb) && InStep(bb, k, j) && k + 1 < bb.instrs
    ensures InStep(bb, k + 1, if j < |bb.exits| && bb.exits[j] == k then j + 1 else j)
  {
  }

  /** An exit already consumed no longer matters. */
  lemma {:induction false} WalkIgnores(bb: Block, c: seq<nat>, c': seq<nat>, e: int, k: nat, j: nat)
    requires |c| == |c'| == |bb.exits| && k <= bb.instrs && j <= |c|
    requires forall p :: j <= p < |c| ==> c'[p] == c[p]
    ensures Walk(bb, c', e, k, j) == Walk(bb, c, e, k, j)
    decreases bb.instrs - k
  {
    if k < bb.instrs {
      if j < |c| && bb.exits[j] == k {
        WalkIgnores(bb, c, c', e - c[j], k + 1, j + 1);
      } else {
        WalkIgnores(bb, c, c', e, k + 1, j);
      }
    }
  }

  /** One more execution leaving at exit `p` adds the instructions from `k` to that exit. */
  lemma {:induction false} WalkOneMore(bb: Block, c: seq<nat>, c': seq<nat>, e: int, k: nat, j: nat, p: nat)
    requires bb.Valid() && Ordered(bb) && |c| == |c'| == |bb.exits| && InStep(bb, k, j) && j <= p <= |c|
    requires k <= bb.ExitAt(p)
    requires forall q :: 0 <= q < |c| ==> c'[q] == c[q] + if q == p then 1 else 0
    ensures Walk(bb, c', e + 1, k, j) == Walk(bb, c, e, k, j) + bb.ExitAt(p) + 1 - k
    decreases bb.instrs - k
  {
    var consumes := j < |c| && bb.exits[j] == k;
    var e2, j2 := if consumes then e - c[j] else e, if consumes then j + 1 else j;
    if k + 1 == bb.instrs {
    } else if k == bb.ExitAt(p) {
      // `p` is a side exit in front of the last instruction, so the walk stands at it
      assert p < |c| && bb.exits[p] == k;
      assert j == p;
      WalkIgnores(bb, c, c', e2, k + 1, j2);
    } else {
      InStepKept(bb, k, j);
      WalkOneMore(bb, c, c', e2, k + 1, j2, p);
    }
  }

  lemma {:induction false} CountsStep(history: seq<nat>, p: nat, n: nat)
    ensures forall q :: 0 <= q < n ==> Counts(history + [p], n)[q] == Counts(history, n)[q] + if q == p then 1 else 0
  {
    assert (history + [p])[..|history|] == history;
  }

  lemma {:induction false} WalkNothing(bb: Block, c: seq<nat>, k: nat, j: nat)
    requires |c| == |bb.exits| && k <= bb.instrs && j <= |c| && forall p :: 0 <= p < |c| ==> c[p] == 0
    ensures Walk(bb, c, 0, k, j) == 0
    decreases bb.instrs - k
  {
    if k < bb.instrs {
      WalkNothing(bb, c, k + 1, if j < |c| && bb.exits[j] == k then j + 1 else j);
    }
  }

  /** With ordered exits the dump rebuilds the run-time total, for every history. */
  lemma {:induction false} DumpRebuildsTotal(bb: Block, history: seq<nat>)
    requires bb.Valid() && Ordered(bb)
    requires forall k :: 0 <= k < |history| ==> history[k] <= |bb.exits|
    ensures Dumped(bb, history) == Executed(bb, history)
    decreases |history|
  {
    var n := |bb.exits|;
    if history == [] {
      WalkNothing(bb, Counts(history, n), 0, 0);
    } else {
      var before, p := history[..|history|-1], history[|history|-1];
      DumpRebuildsTotal(bb, before);
      CountsStep(before, p, n);
      assert history == before + [p];
      WalkOneMore(bb, Counts(before, n), Counts(history, n), |before|, 0, 0, p);
    }
  }

  // ------------------------------------------------------------------ unordered exits: they do not

  /** A walk that can no longer meet exit `b` counts its executions to the end. */
  lemma {:induction false} WalkMisses(bb: Block, c: seq<nat>, k: nat, j: nat, b: nat)
    requires |c| == |bb.exits| && k <= bb.instrs && j <= b < |c|
    requires forall p :: 0 <= p < |c| ==> c[p] == if p == b then 1 else 0
    requires bb.exits[b] < k || exists a :: j <= a < b && bb.exits[a] >= bb.exits[b]
    ensures Walk(bb, c, 1, k, j) == bb.instrs - k
    decreases bb.instrs - k
  {
    if k < bb.instrs {
      var j2 := if j < |c| && bb.exits[j] == k then j + 1 else j;
      if bb.exits[b] >= k {
        var a :| j <= a < b && bb.exits[a] >= bb.exits[b];
        assert j2 <= a || bb.exits[b] < k + 1;
      }
      WalkMisses(bb, c, k + 1, j2, b);
    }
  }

  /** If exit `b`, in front of the last instruction, does not come later than some exit
      before it, a single execution leaving there is dumped as a complete one. */
  lemma {:induction false} UnorderedOvercounts(bb: Block, a: nat, b: nat)
    requires bb.Valid() && a < b < |bb.exits| && bb.exits[b] < bb.instrs - 1 && bb.exits[a] >= bb.exits[b]
    ensures Dumped(bb, [b]) == bb.instrs && Dumped(bb, [b]) > Executed(bb, [b])
  {
    assert [b][..0] == [];
    WalkMisses(bb, Counts([b], |bb.exits|), 0, 0, b);
  }

  /** If the final exit is not at the last instruction, an execution leaving there is dumped
      as a complete one, too. */
  lemma {:induction false} EarlyEndOvercounts(bb: Block)
    requires bb.Valid() && bb.end < bb.instrs - 1
    ensures Dumped(bb, [|bb.exits|]) == bb.instrs && Dumped(bb, [|bb.exits|]) > Executed(bb, [|bb.exits|])
  {
    var h := [|bb.exits|];
    assert h[..0] == [];
    WalkThrough(bb, Counts(h, |bb.exits|), 0, 0);
  }

  lemma {:induction false} WalkThrough(bb: Block, c: seq<nat>, k: nat, j: nat)
    requires |c| == |bb.exits| && k <= bb.instrs && j <= |c| && forall p :: 0 <= p < |c| ==> c[p] == 0
    ensures Walk(bb, c, 1, k, j) == bb.instrs - k
    decreases bb.instrs - k
  {
    if k < bb.instrs {
      WalkThrough(bb, c, k + 1, if j < |c| && bb.exits[j] == k then j + 1 else j);
    }
  }

  /** The dump agrees with the run on every history if and only if the exits are ordered. */
  lemma {:induction false} DumpExactIff(bb: Block)
    requires bb.Valid()
    ensures Ordered(bb) <==>
              forall h: seq<nat> :: (forall k :: 0 <= k < |h| ==> h[k] <= |bb.exits|) ==>
                Dumped(bb, h) == Executed(bb, h)
  {
    if Ordered(bb) {
      forall h: seq<nat> | forall k :: 0 <= k < |h| ==> h[k] <= |bb.exits| ensures Dumped(bb, h) == Executed(bb, h) {
        DumpRebuildsTotal(bb, h);
      }
    } else if bb.end < bb.instrs - 1 {
      EarlyEndOvercounts(bb);
    } else {
      var a, b :| 0 <= a < b < |bb.exits| && bb.exits[b] < bb.instrs - 1 && !(bb.exits[a] < bb.exits[b]);
      UnorderedOvercounts(bb, a, b);
    }
  }

  // ------------------------------------------------------------------ which exits the walk reaches

  /** Exit at which the walk from instruction `k` and exit `j` ends: the lists of all exits
      up to that one are written, and no others. */
  function StopFrom(bb: Block, k: nat, j: nat): (p: nat)
    requires k <= bb.instrs && j <= |bb.exits|
    ensures j <= p <= |bb.exits|
    decreases bb.instrs - k
  {
    if k == bb.instrs then j
    else StopFrom(bb, k + 1, if j < |bb.exits| && bb.exits[j] == k then j + 1 else j)
  }

  function Stop(bb: Block): (p: nat)
    ensures p <= |bb.exits|
  {
    StopFrom(bb, 0, 0)
  }

  predicate Increasing(bb: Block)
  {
    forall a, b :: 0 <= a < b < |bb.exits| ==> bb.exits[a] < bb.exits[b]
  }

  lemma {:induction false} IncreasingReaches(bb: Block, k: nat, j: nat)
    requires bb.Valid() && Increasing(bb) && k <= bb.instrs && InStep(bb, k, j)
    ensures StopFrom(bb, k, j) == |bb.exits|
    decreases bb.instrs - k
  {
    if k < bb.instrs {
      IncreasingReaches(bb, k + 1, if j < |bb.exits| && bb.exits[j] == k then j + 1 else j);
    }
  }

  lemma {:induction false} RepeatedStops(bb: Block, k: nat, j: nat, b: nat)
    requires k <= bb.instrs && j <= b < |bb.exits|
    requires bb.exits[b] < k || exists a :: j <= a < b && bb.exits[a] >= bb.exits[b]
    ensures StopFrom(bb, k, j) <= b
    decreases bb.instrs - k
  {
    if k < bb.instrs {
      var j2 := if bb.exits[j] == k then j + 1 else j;
      if bb.exits[b] >= k {
        var a :| j <= a < b && bb.exits[a] >= bb.exits[b];
        assert j2 <= a || bb.exits[b] < k + 1;
      }
      RepeatedStops(bb, k + 1, j2, b);
    }
  }

  /** The walk reaches the lists of all exits if and only if the exits are strictly
      increasing; two exits at one instruction are enough to cut it short, even at the last
      instruction. */
  lemma {:induction false} AllReachedIff(bb: Block)
    requires bb.Valid()
    ensures Stop(bb) == |bb.exits| <==> Increasing(bb)
  {
    if Increasing(bb) {
      IncreasingReaches(bb, 0, 0);
    } else {
      var a, b :| 0 <= a < b < |bb.exits| && !(bb.exits[a] < bb.exits[b]);
      RepeatedStops(bb, 0, 0, b);
    }
  }

  // ------------------------------------------------------------------ the counters

  class Bbcc {
    const bb: Block
    var ecounterSum: nat
    const ecounter: array<nat>
    var total: nat
    var skipped: nat
    ghost var history: seq<nat>

    /** `history` are the executions since the last dump. */
    ghost predicate Valid()
      reads this, ecounter
    {
      bb.Valid() && ecounter.Length == |bb.exits| + 1 &&
      (forall k :: 0 <= k < |history| ==> history[k] <= |bb.exits|) &&
      ecounterSum == |history| && ecounter[..] == Counts(history, |bb.exits| + 1)
    }

    constructor (bb: Block)
      requires bb.Valid()
      ensures Valid() && history == [] && this.bb == bb && total == 0 && skipped == 0 && fresh(ecounter)
    {
      this.bb := bb;
      ecounter := new nat[|bb.exits| + 1](_ => 0);
      ecounterSum, total, skipped, history := 0, 0, 0, [];
      new;
      assert ecounter[..] == Counts([], |bb.exits| + 1);
    }

    /** The block was left at exit `passed`.  Nothing is counted while collection is off; in a
        skipped function only the cost is, which then also goes to the skipping caller. */
    method Execute(passed: nat, collect: bool, skip: bool)
      requires Valid() && passed <= |bb.exits|
      modifies this, ecounter
      ensures Valid()
      ensures history == if collect && !skip then old(history) + [passed] else old(history)
      ensures total == if collect then old(total) + bb.ExitAt(passed) + 1 else old(total)
      ensures skipped == if collect && skip then old(skipped) + bb.ExitAt(passed) + 1 else old(skipped)
    {
      if !collect {
        return;
      }
      total := total + bb.ExitAt(passed) + 1;
      if skip {
        skipped := skipped + bb.ExitAt(passed) + 1;
        return;
      }
      ecounterSum := ecounterSum + 1;
      ecounter[passed] := ecounter[passed] + 1;
      CountsStep(history, passed, |bb.exits| + 1);
      history := history + [passed];
      assert ecounter[..] == Counts(history, |bb.exits| + 1);
    }

    /** Rebuild the instruction counts since the last dump and start over. */
    method Dump() returns (ir: int)
      requires Valid()
      modifies this, ecounter
      ensures Valid() && history == [] && total == old(total) && skipped == old(skipped)
      ensures ir == Dumped(bb, old(history))
      ensures Ordered(bb) ==> ir == Executed(bb, old(history))
    {
      ghost var c := Counts(history, |bb.exits|);
      var e: int, jmp, instr := ecounterSum, 0, 0;
      ir := 0;
      while instr < bb.instrs
        invariant 0 <= instr <= bb.instrs && 0 <= jmp <= |bb.exits|
        invariant ir + Walk(bb, c, e, instr, jmp) == Dumped(bb, history)
      {
        ir := ir + e;
        if jmp < |bb.exits| && bb.exits[jmp] == instr {
          e := e - ecounter[jmp];
          jmp := jmp + 1;
        }
        instr := instr + 1;
      }
      if Ordered(bb) {
        DumpRebuildsTotal(bb, history);
      }
      ecounterSum := 0;
      for i := 0 to ecounter.Length
        invariant forall k :: 0 <= k < i ==> ecounter[k] == 0
        modifies ecounter
      {
        ecounter[i] := 0;
      }
      history := [];
      assert ecounter[..] == Counts([], |bb.exits| + 1);
    }
  }
}
