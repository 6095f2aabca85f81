/** Cachegrind's branch predictors: a table of two-bit saturating counters indexed by
    seven bits of global history and seven bits of the branch address, and a table of
    last targets for indirect branches. */
module BranchPred {
  import opened Arith

  /** 2^7: history patterns, and address slots per pattern. */
  const BANKS: nat := 128
  const N_COUNTERS: nat := 16384
  const N_BTAC: nat := 512

  /** State of the conditional predictor. */
  datatype Predictor = Predictor(shift: nat, counters: seq<nat>)
  {
    predicate Valid()
    {
      shift < WORD && |counters| == N_COUNTERS && forall i :: 0 <= i < N_COUNTERS ==> counters[i] <= 3
    }
  }

  /** Counter used by a branch at `addr`; addresses are multiples of `align`. */
  function Index(shift: nat, addr: nat, align: nat): (i: nat)
    requires align > 0
    ensures shift % BANKS * BANKS <= i < shift % BANKS * BANKS + BANKS && i < N_COUNTERS
  {
    shift % BANKS * BANKS + addr / align % BANKS
  }

  function Bump(c: nat, taken: bool): (r: nat)
  {
    if taken then (if c < 3 then c + 1 else c) else (if c > 0 then c - 1 else c)
  }

  function Next(p: Predictor, addr: nat, align: nat, taken: bool): (r: Predictor)
    requires p.Valid() && align > 0
    ensures r.Valid()
  {
    var i := Index(p.shift, addr, align);
    Predictor((2 * p.shift + if taken then 1 else 0) % WORD, p.counters[i := Bump(p.counters[i], taken)])
  }

  predicate Mispredicts(p: Predictor, addr: nat, align: nat, taken: bool)
    requires p.Valid() && align > 0
  {
    (p.counters[Index(p.shift, addr, align)] >= 2) != taken
  }

  /** Mispredictions of a run of branches that all have the same outcome. */
  function Mispredictions(p: Predictor, addrs: seq<nat>, align: nat, taken: bool): (m: nat)
    requires p.Valid() && align > 0
    decreases |addrs|
  {
    if addrs == [] then 0
    else
      (if Mispredicts(p, addrs[0], align, taken) then 1 else 0)
      + Mispredictions(Next(p, addrs[0], align, taken), addrs[1..], align, taken)
  }

  // ------------------------------------------------------------------ the bound

  /** How often a counter can still mispredict the outcome `taken`. */
  function Need(c: nat, taken: bool): (n: nat)
    ensures c <= 3 ==> n <= 2
  {
    if taken then (if c < 2 then 2 - c else 0) else (if c > 1 then c - 1 else 0)
  }

  function TotalNeed(cs: seq<nat>, taken: bool): (n: nat)
  {
    if cs == [] then 0 else TotalNeed(cs[..|cs|-1], taken) + Need(cs[|cs|-1], taken)
  }

  lemma {:induction false} TotalNeedBound(cs: seq<nat>, taken: bool)
    requires forall i :: 0 <= i < |cs| ==> cs[i] <= 3
    ensures TotalNeed(cs, taken) <= 2 * |cs|
  {
    if cs != [] { TotalNeedBound(cs[..|cs|-1], taken); }
  }

  lemma {:induction false} TotalNeedUpdate(cs: seq<nat>, i: nat, c: nat, taken: bool)
    requires i < |cs|
    ensures TotalNeed(cs[i := c], taken) + Need(cs[i], taken) == TotalNeed(cs, taken) + Need(c, taken)
  {
    var last := |cs| - 1;
    if i < last {
      TotalNeedUpdate(cs[..last], i, c, taken);
      assert cs[i := c][..last] == cs[..last][i := c];
    } else {
      assert cs[i := c][..last] == cs[..last];
    }
  }

  /** The history pattern after at least seven branches with this outcome. */
  function Steady(taken: bool): (h: nat)
    ensures h < BANKS
  {
    if taken then BANKS - 1 else 0
  }

  function Bank(p: Predictor, taken: bool): (cs: seq<nat>)
    requires p.Valid()
    ensures |cs| == BANKS
  {
    var base := Steady(taken) * BANKS;
    p.counters[base..base+BANKS]
  }

  /** The `k` most recent outcomes were all `taken`. */
  predicate Settled(shift: nat, taken: bool, k: nat)
  {
    shift % Power(k) == if taken then Power(k) - 1 else 0
  }

  /** Shifting in one bit, seen through `2 * n` low-order values. */
  lemma {:induction false} ShiftedBits(shift: nat, bit: nat, n: nat, words: nat)
    requires bit <= 1 && 0 < n && WORD == words * (2 * n)
    ensures (2 * shift + bit) % WORD % (2 * n) == 2 * (shift % n) + bit
  {
    var x, r := 2 * shift + bit, 2 * (shift % n) + bit;
    assert x == (shift / n) * (2 * n) + r by {
      assert shift == (shift / n) * n + shift % n;
    }
    LowPart(x, x / WORD, x % WORD, shift / n, r, 2 * n, words);
  }

  /** A word and the number it is the low part of have the same low-order values. */
  lemma {:induction false} LowPart(x: nat, w: int, y: nat, q: int, r: nat, m: nat, words: nat)
    requires r < m && WORD == words * m && x == w * WORD + y && x == q * m + r
    ensures y % m == r
  {
    var k := q - w * words;
    assert w * WORD == (w * words) * m;
    assert y == k * m + r;
    if k < 0 { LessTimes(k, -1, m); }
    DivModIs(y, m, k, r);
  }

  lemma {:induction false} SettledStep(shift: nat, taken: bool, k: nat)
    requires k < 7 && Settled(shift, taken, k)
    ensures Settled((2 * shift + if taken then 1 else 0) % WORD, taken, k + 1)
  {
    SmallPowers(k);
    SmallPowers(k + 1);
    ShiftedBits(shift, if taken then 1 else 0, Power(k), WORD / Power(k + 1));
  }

  lemma {:induction false} SmallPowers(k: nat)
    requires k <= 7
    ensures Power(k) == [1, 2, 4, 8, 16, 32, 64, 128][k]
  {
    assert Power(1) == 2 && Power(2) == 4 && Power(3) == 8 && Power(4) == 16;
    assert Power(5) == 32 && Power(6) == 64 && Power(7) == 128;
  }

  lemma {:induction false} SteadyStep(shift: nat, taken: bool)
    requires shift % BANKS == Steady(taken)
    ensures (2 * shift + if taken then 1 else 0) % WORD % BANKS == Steady(taken)
  {
  }

  /** A branch moves counters towards its outcome, so no need ever grows; in the steady
      bank a misprediction uses up one unit of it. */
  lemma {:induction false} BankStep(p: Predictor, addr: nat, align: nat, taken: bool)
    requires p.Valid() && align > 0
    ensures var p' := Next(p, addr, align, taken);
            TotalNeed(Bank(p', taken), taken) <= TotalNeed(Bank(p, taken), taken)
    ensures p.shift % BANKS == Steady(taken) && Mispredicts(p, addr, align, taken) ==>
            TotalNeed(Bank(Next(p, addr, align, taken), taken), taken) + 1 <= TotalNeed(Bank(p, taken), taken)
  {
    var i, base := Index(p.shift, addr, align), Steady(taken) * BANKS;
    var c := Bump(p.counters[i], taken);
    var bank, bank' := Bank(p, taken), Bank(Next(p, addr, align, taken), taken);
    if base <= i < base + BANKS {
      assert bank[i-base] == p.counters[i];
      assert bank' == bank[i-base := c];
      TotalNeedUpdate(bank, i - base, c, taken);
    } else {
      assert bank' == bank;
    }
  }

  lemma {:induction false} MispredictionsFrom(p: Predictor, addrs: seq<nat>, align: nat, taken: bool, k: nat)
    requires p.Valid() && align > 0 && k <= 7 && Settled(p.shift, taken, k)
    ensures Mispredictions(p, addrs, align, taken) <= (7 - k) + TotalNeed(Bank(p, taken), taken)
    decreases |addrs|
  {
    if addrs != [] {
      var p' := Next(p, addrs[0], align, taken);
      BankStep(p, addrs[0], align, taken);
      if k < 7 {
        SettledStep(p.shift, taken, k);
        MispredictionsFrom(p', addrs[1..], align, taken, k + 1);
      } else {
        SmallPowers(7);
        SteadyStep(p.shift, taken);
        MispredictionsFrom(p', addrs[1..], align, taken, 7);
      }
    }
  }

  /** However long a run of branches with the same outcome is, and whatever their
      addresses, it is mispredicted at most 7 + 2 * 128 times. */
  lemma {:induction false} SameOutcomeBound(p: Predictor, addrs: seq<nat>, align: nat, taken: bool)
    requires p.Valid() && align > 0
    ensures Mispredictions(p, addrs, align, taken) <= 7 + 2 * BANKS
  {
    MispredictionsFrom(p, addrs, align, taken, 0);
    TotalNeedBound(Bank(p, taken), taken);
  }

  // ------------------------------------------------------------------ which branches share a counter

  datatype Branch = Branch(addr: nat, taken: bool)

  function Cleared(): (p: Predictor)
    ensures p.Valid()
  {
    Predictor(0, seq(N_COUNTERS, _ => 0))
  }

  /** The predictor after a trace of branches. */
  function After(h: seq<Branch>, align: nat): (p: Predictor)
    requires align > 0
    ensures p.Valid()
  {
    if h == [] then Cleared()
    else Next(After(h[..|h|-1], align), h[|h|-1].addr, align, h[|h|-1].taken)
  }

  /** Was the `k + 1`-th branch before number `i` taken?  There are none before the first. */
  predicate WasTaken(h: seq<Branch>, i: nat, k: nat)
    requires i <= |h|
  {
    i > k && h[i-1-k].taken
  }

  /** The `m` outcomes before number `i` are those before number `j`. */
  predicate SamePast(h: seq<Branch>, i: nat, j: nat, m: nat)
    requires i <= |h| && j <= |h|
  {
    forall k :: 0 <= k < m ==> WasTaken(h, i, k) == WasTaken(h, j, k)
  }

  /** Seven equal outcomes before them, and instruction numbers equal modulo 128. */
  predicate Alike(h: seq<Branch>, i: nat, j: nat, align: nat)
    requires i < |h| && j < |h| && align > 0
  {
    SamePast(h, i, j, 7) && h[i].addr / align % 128 == h[j].addr / align % 128
  }

  /** Up for a taken branch and down for others, between 0 and 3, over those of the first `n`
      branches that are like number `i`. */
  function Level(h: seq<Branch>, n: nat, i: nat, align: nat): (c: int)
    requires n <= i < |h| && align > 0
  {
    if n == 0 then 0
    else
      var c := Level(h, n - 1, i, align);
      if !Alike(h, n - 1, i, align) then c
      else if h[n-1].taken then Min(c + 1, 3) else Max(c - 1, 0)
  }

  /** The `m` outcomes before number `i` as a number, the latest one lowest. */
  function Pattern(h: seq<Branch>, i: nat, m: nat): (v: nat)
    requires i <= |h|
    decreases m
  {
    if m == 0 || i == 0 then 0 else (if h[i-1].taken then 1 else 0) + 2 * Pattern(h, i - 1, m - 1)
  }

  lemma {:induction false} SamePastStep(h: seq<Branch>, i: nat, j: nat, m: nat)
    requires i <= |h| && j <= |h| && m > 0
    ensures var i', j' := Max(i - 1, 0), Max(j - 1, 0);
            SamePast(h, i, j, m) <==> WasTaken(h, i, 0) == WasTaken(h, j, 0) && SamePast(h, i', j', m - 1)
  {
    var i', j' := Max(i - 1, 0), Max(j - 1, 0);
    assert forall k :: 0 <= k < m - 1 ==> WasTaken(h, i', k) == WasTaken(h, i, k + 1) && WasTaken(h, j', k) == WasTaken(h, j, k + 1);
    if SamePast(h, i', j', m - 1) && WasTaken(h, i, 0) == WasTaken(h, j, 0) {
      forall k | 0 <= k < m ensures WasTaken(h, i, k) == WasTaken(h, j, k) {
        if k > 0 { assert WasTaken(h, i', k - 1) == WasTaken(h, j', k - 1); }
      }
    }
    if SamePast(h, i, j, m) {
      forall k | 0 <= k < m - 1 ensures WasTaken(h, i', k) == WasTaken(h, j', k) {
        assert WasTaken(h, i, k + 1) == WasTaken(h, j, k + 1);
      }
    }
  }

  lemma {:induction false} PatternsEqual(h: seq<Branch>, i: nat, j: nat, m: nat)
    requires i <= |h| && j <= |h|
    ensures Pattern(h, i, m) == Pattern(h, j, m) <==> SamePast(h, i, j, m)
    decreases m
  {
    if m > 0 {
      hide SamePast;
      var i', j' := Max(i - 1, 0), Max(j - 1, 0);
      PatternsEqual(h, i', j', m - 1);
      SamePastStep(h, i, j, m);
      assert Pattern(h, i, m) == (if WasTaken(h, i, 0) then 1 else 0) + 2 * Pattern(h, i', m - 1);
      assert Pattern(h, j, m) == (if WasTaken(h, j, 0) then 1 else 0) + 2 * Pattern(h, j', m - 1);
    }
  }

  /** The low-order bits of the history are the latest outcomes. */
  lemma {:induction false} ShiftIsPattern(h: seq<Branch>, i: nat, align: nat, m: nat)
    requires align > 0 && i <= |h| && m <= 7
    ensures After(h[..i], align).shift % Power(m) == Pattern(h, i, m)
    decreases i
  {
    hide Power, After;
    SmallPowers(m);
    ShiftAfter(h, i, align);
    if i > 0 && m > 0 {
      ShiftIsPattern(h, i - 1, align, m - 1);
      ShiftStep(After(h[..i-1], align).shift, h[i-1].taken, m);
    }
  }

  lemma {:induction false} ShiftAfter(h: seq<Branch>, i: nat, align: nat)
    requires align > 0 && i <= |h|
    ensures After(h[..i], align).shift ==
            if i == 0 then 0 else (2 * After(h[..i-1], align).shift + if h[i-1].taken then 1 else 0) % WORD
  {
    hide Index, Bump;
    if i > 0 { assert h[..i][..i-1] == h[..i-1] && h[..i][i-1] == h[i-1]; }
  }

  lemma {:induction false} ShiftStep(shift: nat, taken: bool, m: nat)
    requires 1 <= m <= 7
    ensures var bit := if taken then 1 else 0;
            (2 * shift + bit) % WORD % Power(m) == bit + 2 * (shift % Power(m - 1))
  {
    hide Power;
    SmallPowers(m);
    SmallPowers(m - 1);
    ShiftedBits(shift, if taken then 1 else 0, Power(m - 1), WORD / Power(m));
  }

  /** Two branches of a trace use the same counter if and only if they are alike. */
  lemma {:induction false} SameCounterIff(h: seq<Branch>, i: nat, j: nat, align: nat)
    requires align > 0 && i < |h| && j < |h|
    ensures Index(After(h[..i], align).shift, h[i].addr, align) == Index(After(h[..j], align).shift, h[j].addr, align)
            <==> Alike(h, i, j, align)
  {
    hide After, Pattern, SamePast;
    ShiftIsPattern(h, i, align, 7);
    ShiftIsPattern(h, j, align, 7);
    PatternsEqual(h, i, j, 7);
    SmallPowers(7);
  }

  lemma {:induction false} CounterIsLevel(h: seq<Branch>, n: nat, i: nat, align: nat)
    requires align > 0 && n <= i < |h|
    ensures After(h[..n], align).counters[Index(After(h[..i], align).shift, h[i].addr, align)] == Level(h, n, i, align)
    decreases n
  {
    if n > 0 {
      hide Index, Alike;
      assert h[..n][..n-1] == h[..n-1] && h[..n][n-1] == h[n-1];
      CounterIsLevel(h, n - 1, i, align);
      SameCounterIff(h, n - 1, i, align);
    }
  }

  lemma {:induction false} AfterOneMore(h: seq<Branch>, addr: nat, taken: bool, align: nat)
    requires align > 0
    ensures var more := h + [Branch(addr, taken)];
            more[..|h|] == h && After(more, align) == Next(After(h, align), addr, align, taken)
  {
    assert (h + [Branch(addr, taken)])[..|h|] == h;
  }

  /** Over every trace from the cleared state: a branch is mispredicted if and only if the
      saturating count over the earlier branches like it disagrees with it. */
  lemma {:induction false} MispredictedIff(h: seq<Branch>, i: nat, align: nat)
    requires align > 0 && i < |h|
    ensures Mispredicts(After(h[..i], align), h[i].addr, align, h[i].taken) <==>
            (Level(h, i, i, align) >= 2) != h[i].taken
  {
    hide After, Level, Index;
    CounterIsLevel(h, i, i, align);
  }

  // ------------------------------------------------------------------ the predictor's state

  function BtacIndex(addr: nat, align: nat): (i: nat)
    requires align > 0
    ensures i < N_BTAC
  {
    addr / align % N_BTAC
  }

  /** An indirect branch with its target. */
  datatype Jump = Jump(addr: nat, dst: nat)

  function Targets(h: seq<Jump>, align: nat): (t: seq<nat>)
    requires align > 0
    ensures |t| == N_BTAC
  {
    if h == [] then seq(N_BTAC, _ => 0)
    else Targets(h[..|h|-1], align)[BtacIndex(h[|h|-1].addr, align) := h[|h|-1].dst]
  }

  /** The target of the latest branch whose instruction number is equal to that of `addr` modulo
      512, and 0 if there was none. */
  function LastTarget(h: seq<Jump>, addr: nat, align: nat): (t: nat)
    requires align > 0
  {
    if h == [] then 0
    else if h[|h|-1].addr / align % 512 == addr / align % 512 then h[|h|-1].dst
    else LastTarget(h[..|h|-1], addr, align)
  }

  lemma {:induction false} TargetIsLast(h: seq<Jump>, addr: nat, align: nat)
    requires align > 0
    ensures Targets(h, align)[BtacIndex(addr, align)] == LastTarget(h, addr, align)
  {
    if h != [] { TargetIsLast(h[..|h|-1], addr, align); }
  }

  class Unit {
    const align: nat
    var shift: nat
    const counters: array<nat>
    const btac: array<nat>
    ghost var branches: seq<Branch>
    ghost var jumps: seq<Jump>

    /** The tables are those of the branches and indirect branches seen. */
    ghost predicate Valid()
      reads this, counters, btac
    {
      align > 0 && btac.Length == N_BTAC && counters != btac && View().Valid() &&
      View() == After(branches, align) && btac[..] == Targets(jumps, align)
    }

    ghost function View(): Predictor
      reads this, counters
    {
      Predictor(shift, counters[..])
    }

    constructor (align: nat)
      requires align > 0
      ensures Valid() && this.align == align && fresh(counters) && fresh(btac) && branches == [] && jumps == []
    {
      this.align := align;
      shift := 0;
      counters := new nat[N_COUNTERS](_ => 0);
      btac := new nat[N_BTAC](_ => 0);
      branches, jumps := [], [];
      new;
      assert counters[..] == Cleared().counters && btac[..] == Targets([], align);
    }

    /** Mispredicts exactly when the saturating count over the earlier branches like this one
        disagrees with it. */
    method DoCondBranchPredict(addr: nat, taken: bool) returns (mispredict: bool)
      requires Valid()
      modifies this, counters
      ensures Valid() && branches == old(branches) + [Branch(addr, taken)] && jumps == old(jumps)
      ensures mispredict == ((Level(branches, |old(branches)|, |old(branches)|, align) >= 2) != taken)
    {
      hide After, Level, Targets, Index;
      var index := Index(shift, addr, align);
      ghost var n := |branches|;
      ghost var more := branches + [Branch(addr, taken)];
      AfterOneMore(branches, addr, taken, align);
      MispredictedIff(more, n, align);
      var predicted := counters[index] >= 2;
      mispredict := (taken && !predicted) || (!taken && predicted);
      shift := (2 * shift + if taken then 1 else 0) % WORD;
      if taken {
        if counters[index] < 3 {
          counters[index] := counters[index] + 1;
        }
      } else {
        if counters[index] > 0 {
          counters[index] := counters[index] - 1;
        }
      }
      assert counters[..] == old(counters[..])[index := Bump(old(counters[index]), taken)];
      branches := more;
    }

    /** Mispredicts exactly when the latest indirect branch in the same slot went elsewhere. */
    method DoIndBranchPredict(addr: nat, actual: nat) returns (mispredict: bool)
      requires Valid()
      modifies this`jumps, btac
      ensures Valid() && jumps == old(jumps) + [Jump(addr, actual)]
      ensures mispredict == (LastTarget(old(jumps), addr, align) != actual)
    {
      hide After;
      var index := BtacIndex(addr, align);
      TargetIsLast(jumps, addr, align);
      mispredict := btac[index] != actual;
      btac[index] := actual;
      jumps := jumps + [Jump(addr, actual)];
      assert jumps[..|jumps|-1] == old(jumps);
    }
  }
}
