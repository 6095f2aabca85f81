/** What entering a block does to the calls that are active, said of the calls, the recorded
    stack pointers and return addresses, and the block entry alone. */
module CallEntries {
  import opened Arith
  import opened Options
  import opened CallCosts
  import opened ExecCounts
  import opened ShadowStack

  /** An active call: its jCC (none if the callee is skipped), the recorded stack pointer, its
      return address, and the number of events before the one that began it. */
  datatype ActiveCall = ActiveCall(jcc: Option<Arc>, sp: nat, ret: nat, at: nat)

  /** With an unchanged stack pointer a return leaves the latest `n` calls: they all have this
      stack pointer, and the return address is that of the earliest of them and of no later. */
  ghost predicate ReturnsFrom(cs: seq<ActiveCall>, in': BlockEntry, n: nat)
  {
    1 <= n <= |cs| && cs[|cs|-n].ret == in'.addr &&
    (forall k :: |cs| - n <= k < |cs| ==> cs[k].sp == in'.sp) &&
    (forall k :: |cs| - n < k < |cs| ==> cs[k].ret != in'.addr)
  }

  /** A return that is one: nothing is active, or the latest call is below the stack pointer,
      or the return address is found. */
  ghost predicate RealReturn(cs: seq<ActiveCall>, in': BlockEntry)
  {
    in'.kind == Return &&
    (cs == [] || cs[|cs|-1].sp < in'.sp || exists n :: ReturnsFrom(cs, in', n))
  }

  /** A jump taken for a call: a return that is none, or a jump that crosses into a function
      entry, section or object. */
  ghost predicate JumpAsCall(cs: seq<ActiveCall>, in': BlockEntry)
  {
    in'.hasLast && !RealReturn(cs, in') && in'.kind != Call && (in'.kind == Return || in'.crossing)
  }

  /** Such a jump ends the call it leaves if that function is popped on jumps. */
  ghost predicate ReplacesTop(cs: seq<ActiveCall>, in': BlockEntry)
  {
    JumpAsCall(cs, in') && in'.popOnJump && cs != [] && cs[|cs|-1].jcc.Some?
  }

  /** A return with nothing to return from: its call is only found out now. */
  ghost predicate FromOutside(cs: seq<ActiveCall>, in': BlockEntry)
  {
    RealReturn(cs, in') && (cs == [] || in'.atMarker)
  }

  /** The number of calls up to the first one below `sp`. */
  function Kept(cs: seq<ActiveCall>, sp: nat): (n: nat)
    ensures n <= |cs| && forall k :: 0 <= k < n ==> cs[k].sp >= sp
    ensures n < |cs| ==> cs[n].sp < sp
  {
    if cs == [] || cs[0].sp < sp then 0 else 1 + Kept(cs[1..], sp)
  }

  /** How many calls stay active. */
  ghost function Staying(cs: seq<ActiveCall>, in': BlockEntry): (n: nat)
    ensures n <= |cs|
  {
    if FromOutside(cs, in') then |cs|
    else if RealReturn(cs, in') && cs[|cs|-1].sp >= in'.sp then
      var n :| ReturnsFrom(cs, in', n); |cs| - n
    else if ReplacesTop(cs, in') then |cs| - 1
    else Kept(cs, in'.sp)
  }

  /** Does a call begin?  A replacement always does, and a call or a jump taken for one if no
      recorded stack pointer is below the program's. */
  ghost predicate Begins(cs: seq<ActiveCall>, in': BlockEntry)
  {
    ReplacesTop(cs, in') ||
    (!RealReturn(cs, in') && (in'.kind == Call || JumpAsCall(cs, in')) &&
     forall k :: 0 <= k < |cs| ==> cs[k].sp >= in'.sp)
  }

  /** The stack pointer recorded for it: for a call the program's, for a jump that of the call
      below it, for a replacement of the only call that call's. */
  ghost function RecordedSp(cs: seq<ActiveCall>, in': BlockEntry): (sp: nat)
  {
    if ReplacesTop(cs, in') then cs[Max(|cs| - 2, 0)].sp
    else if in'.kind != Call && cs != [] then cs[|cs|-1].sp
    else in'.sp
  }

  /** The active calls after the entry, the `at`-th event. */
  ghost function ActiveAfter(cs: seq<ActiveCall>, in': BlockEntry, at: nat): (r: seq<ActiveCall>)
  {
    cs[..Staying(cs, in')] +
    if Begins(cs, in') then [ActiveCall(in'.jcc, RecordedSp(cs, in'), in'.ret, at)] else []
  }

  // ------------------------------------------------------------------ the shadow stack does this

  ghost predicate Agree(cs: seq<ActiveCall>, fs: seq<Frame>)
  {
    |cs| == |fs| &&
    forall k :: 0 <= k < |cs| ==> cs[k].jcc == fs[k].jcc && cs[k].sp == fs[k].sp && cs[k].ret == fs[k].ret
  }

  /** A return matches `r - n + 1` frames. */
  lemma {:induction false} MatchIs(cs: seq<ActiveCall>, fs: seq<Frame>, in': BlockEntry, n: nat)
    requires Agree(cs, fs) && fs != [] && fs[|fs|-1].sp == in'.sp && n > 0
    ensures var r := MatchReturn(fs, in'.sp, in'.addr, n);
            (r == 0 ==> forall m :: !ReturnsFrom(cs, in', m)) &&
            (r != 0 ==> r >= n && ReturnsFrom(cs, in', r - n + 1))
    decreases |fs|
  {
    var last := |fs| - 1;
    if fs[last].ret == in'.addr {
      assert ReturnsFrom(cs, in', 1);
    } else {
      assert !ReturnsFrom(cs, in', 1);
      if last > 0 && fs[last-1].sp == in'.sp {
        MatchIs(cs[..last], fs[..last], in', n + 1);
        forall m: nat | m > 1 ensures ReturnsFrom(cs, in', m) <==> ReturnsFrom(cs[..last], in', m - 1) {
          OneFurther(cs, in', m);
        }
      }
    }
  }

  lemma {:induction false} OneFurther(cs: seq<ActiveCall>, in': BlockEntry, m: nat)
    requires cs != [] && m > 1 && cs[|cs|-1].sp == in'.sp && cs[|cs|-1].ret != in'.addr
    ensures ReturnsFrom(cs, in', m) <==> ReturnsFrom(cs[..|cs|-1], in', m - 1)
  {
    var rest := cs[..|cs|-1];
    assert forall k :: 0 <= k < |rest| ==> rest[k] == cs[k];
  }

  lemma {:induction false} OnlyOne(cs: seq<ActiveCall>, in': BlockEntry, m: nat, n: nat)
    requires ReturnsFrom(cs, in', m) && ReturnsFrom(cs, in', n)
    ensures m == n
  {
  }

  /** The search finds the calls a return leaves, if there are any. */
  lemma {:induction false} PopCountIs(cs: seq<ActiveCall>, fs: seq<Frame>, in': BlockEntry)
    requires Agree(cs, fs) && fs != []
    ensures var n := PopCount(fs, in'.sp, in'.addr);
            (n != 0 <==> cs[|cs|-1].sp < in'.sp || exists m :: ReturnsFrom(cs, in', m)) &&
            (n != 0 && cs[|cs|-1].sp >= in'.sp ==> ReturnsFrom(cs, in', n)) &&
            (cs[|cs|-1].sp < in'.sp ==> n == 1)
  {
    if fs[|fs|-1].sp == in'.sp { MatchIs(cs, fs, in', 1); }
  }

  /** The classification is the one told from the calls. */
  lemma {:induction false} Classified(cs: seq<ActiveCall>, fs: seq<Frame>, in': BlockEntry)
    requires Agree(cs, fs)
    ensures Matched(fs, in') == Return <==> RealReturn(cs, in')
    ensures Emulated(fs, in') <==> JumpAsCall(cs, in')
    ensures PopsOnJump(fs, in') <==> ReplacesTop(cs, in')
    ensures Matched(fs, in') == Call <==> in'.kind == Call
  {
    hide PopCount, ReturnsFrom;
    if fs != [] { PopCountIs(cs, fs, in'); }
  }

  lemma {:induction false} KeptIs(cs: seq<ActiveCall>, fs: seq<Frame>, sp: nat)
    requires Agree(cs, fs) && Descending(fs)
    ensures Below(fs, sp) == |cs| - Kept(cs, sp)
  {
    var n := Kept(cs, sp);
    BelowFrom(fs, sp, n);
  }

  lemma {:induction false} BelowFrom(fs: seq<Frame>, sp: nat, n: nat)
    requires n <= |fs| && (forall k :: 0 <= k < n ==> fs[k].sp >= sp) && forall k :: n <= k < |fs| ==> fs[k].sp < sp
    ensures Below(fs, sp) == |fs| - n
  {
    if fs != [] {
      var last := |fs| - 1;
      BelowFrom(fs[..last], sp, Min(n, last));
    }
  }

  lemma {:induction false} PopsBelow(cs: seq<ActiveCall>, fs: seq<Frame>, sp: nat)
    requires Agree(cs, fs) && Descending(fs)
    ensures Pops(fs, sp, 0) == |cs| - Kept(cs, sp)
  {
    PopsCount(fs, sp, 0);
    KeptIs(cs, fs, sp);
  }

  lemma {:induction false} EqualTop(fs: seq<Frame>, sp: nat, n: nat)
    requires n <= |fs| && forall k :: |fs| - n <= k < |fs| ==> fs[k].sp == sp
    ensures Equal(fs, sp) >= n
    decreases n
  {
    if n > 0 {
      var rest := fs[..|fs|-1];
      assert forall k :: 0 <= k < |rest| ==> rest[k] == fs[k];
      EqualTop(rest, sp, n - 1);
    }
  }

  lemma {:induction false} PopsFound(fs: seq<Frame>, sp: nat, n: nat)
    requires Descending(fs) && 1 <= n <= |fs| && forall k :: |fs| - n <= k < |fs| ==> fs[k].sp == sp
    ensures Pops(fs, sp, n) == n
  {
    hide Pops, Below, Equal;
    PopsCount(fs, sp, n);
    EqualTop(fs, sp, n);
    assert forall i :: 0 <= i < |fs| ==> fs[i].sp >= fs[|fs|-1].sp;
    NoneBelow(fs, sp);
  }

  lemma {:induction false} PopsPassed(cs: seq<ActiveCall>, fs: seq<Frame>, sp: nat)
    requires Agree(cs, fs) && Descending(fs) && fs != [] && fs[|fs|-1].sp < sp
    ensures Pops(fs, sp, 1) == |cs| - Kept(cs, sp)
  {
    hide Pops, Equal, Kept;
    PopsCount(fs, sp, 1);
    KeptIs(cs, fs, sp);
    assert Below(fs, sp) >= 1;
  }

  /** A return pops exactly the calls it ends. */
  lemma {:induction false} PopsReturned(cs: seq<ActiveCall>, fs: seq<Frame>, in': BlockEntry)
    requires Agree(cs, fs) && Descending(fs) && RealReturn(cs, in') && !FromOutside(cs, in')
    ensures Pops(fs, in'.sp, PopCount(fs, in'.sp, in'.addr)) == |cs| - Staying(cs, in')
  {
    hide PopCount, Pops, Descending;
    var n := PopCount(fs, in'.sp, in'.addr);
    PopCountIs(cs, fs, in');
    if cs[|cs|-1].sp >= in'.sp {
      var m := |cs| - Staying(cs, in');
      assert ReturnsFrom(cs, in', m);
      OnlyOne(cs, in', m, n);
      PopsFound(fs, in'.sp, n);
    } else {
      PopsPassed(cs, fs, in'.sp);
    }
  }

  /** The frame pushed for a call that begins when the counters stand at `cost`. */
  ghost function NewFrame(cs: seq<ActiveCall>, cost: Cost, in': BlockEntry): (f: Frame)
  {
    Frame(in'.jcc, cost, RecordedSp(cs, in'), in'.ret)
  }

  /** An entry as accounted steps: a call found out and ended at once, or the calls that end
      and then the one that begins. */
  ghost function EntryOps(cs: seq<ActiveCall>, cost: Cost, lastDump: Cost, in': BlockEntry): (ops: seq<Op>)
  {
    if FromOutside(cs, in') then [PushOp(UnderflowFrame(lastDump, in')), PopOp]
    else PopOps(|cs| - Staying(cs, in')) + if Begins(cs, in') then [PushOp(NewFrame(cs, cost, in'))] else []
  }

  lemma {:induction false} UnwindOpsAre(cs: seq<ActiveCall>, fs: seq<Frame>, cost: Cost, in': BlockEntry)
    requires Agree(cs, fs) && Descending(fs) && !RealReturn(cs, in') && !ReplacesTop(cs, in')
    ensures UnwindAndPushOps(fs, cost, in', in'.sp, in'.kind == Call || JumpAsCall(cs, in'), JumpAsCall(cs, in')) ==
            EntryOps(cs, cost, [], in')
  {
    hide Pops, ReturnsFrom, RealReturn, Descending;
    PopsBelow(cs, fs, in'.sp);
    assert Staying(cs, in') == Kept(cs, in'.sp);
    assert Kept(cs, in'.sp) == |cs| <==> forall k :: 0 <= k < |cs| ==> cs[k].sp >= in'.sp;
    assert PopOps(0) == [];
  }

  lemma {:induction false} ReplaceOpsAre(cs: seq<ActiveCall>, fs: seq<Frame>, cost: Cost, in': BlockEntry)
    requires Agree(cs, fs) && Descending(fs) && ReplacesTop(cs, in')
    ensures [PopOp] + UnwindAndPushOps(fs[..|fs|-1], cost, in', fs[|fs|-1].sp, true, true) == EntryOps(cs, cost, [], in')
  {
    hide ReturnsFrom, RealReturn;
    var rest := fs[..|fs|-1];
    assert Pops(rest, fs[|fs|-1].sp, 0) == 0;
    assert PopOps(1) == [PopOp];
    assert Staying(cs, in') == |cs| - 1;
  }

  /** The steps of a block entry are those told from the active calls. */
  lemma {:induction false} EntryOpsAre(cs: seq<ActiveCall>, b: Books, lastDump: Cost, in': BlockEntry)
    requires Agree(cs, b.frames) && Descending(b.frames)
    ensures EnterOps(b, lastDump, in') == EntryOps(cs, b.cost, lastDump, in')
  {
    var fs := b.frames;
    Classified(cs, fs, in');
    hide RealReturn, Matched, Emulated, UnwindAndPushOps, Descending, PopCount, Pops;
    if ReplacesTop(cs, in') {
      ReplaceOpsAre(cs, fs, b.cost, in');
    } else if RealReturn(cs, in') {
      if !FromOutside(cs, in') {
        PopsReturned(cs, fs, in');
        assert PopOps(|cs| - Staying(cs, in')) + [] == PopOps(|cs| - Staying(cs, in'));
      }
    } else {
      UnwindOpsAre(cs, fs, b.cost, in');
    }
  }

  // ------------------------------------------------------------------ the stack after an entry

  /** The calls on a shadow stack. */
  function Calls(fs: seq<Frame>): (cs: seq<ActiveCall>)
    ensures Agree(cs, fs)
  {
    seq(|fs|, k requires 0 <= k < |fs| => ActiveCall(fs[k].jcc, fs[k].sp, fs[k].ret, 0))
  }

  ghost function FramesAfter(b: Books, in': BlockEntry): (fs: seq<Frame>)
  {
    var cs := Calls(b.frames);
    b.frames[..Staying(cs, in')] + if Begins(cs, in') then [NewFrame(cs, b.cost, in')] else []
  }

  lemma {:induction false} UnwindFrames(b: Books, in': BlockEntry, call: bool, emulated: bool)
    requires Sound(b) && Descending(b.frames)
    ensures var fs, cs := b.frames, Calls(b.frames);
            UnwindAndPush(b, in', in'.sp, call, emulated).frames ==
            if Kept(cs, in'.sp) < |cs| || !call then fs[..Kept(cs, in'.sp)]
            else fs + [Frame(in'.jcc, b.cost, if emulated && fs != [] then fs[|fs|-1].sp else in'.sp, in'.ret)]
  {
    hide Sound, Descending, Pops;
    UnwindPops(b, in'.sp, 0);
    PopsBelow(Calls(b.frames), b.frames, in'.sp);
  }

  lemma {:induction false} ReplaceFrames(b: Books, lastDump: Cost, in': BlockEntry)
    requires Sound(b) && AtLeast(b.cost, lastDump) && Descending(b.frames)
    requires ReplacesTop(Calls(b.frames), in')
    ensures Enter(b, lastDump, in').frames == FramesAfter(b, in')
  {
    hide Sound, Descending, Matched, Emulated, Enter, RealReturn;
    Classified(Calls(b.frames), b.frames, in');
    PopOnJumpPushes(b, lastDump, in');
  }

  lemma {:induction false} ReturnFrames(b: Books, lastDump: Cost, in': BlockEntry)
    requires Sound(b) && AtLeast(b.cost, lastDump) && Descending(b.frames)
    requires RealReturn(Calls(b.frames), in')
    ensures Enter(b, lastDump, in').frames == FramesAfter(b, in')
  {
    hide Sound, Descending, Matched, Emulated, PopsOnJump, UnwindAndPush, Unwind, Pops, PopCount, ReturnsFrom;
    var fs, cs := b.frames, Calls(b.frames);
    Classified(cs, fs, in');
    if !FromOutside(cs, in') {
      PopsReturned(cs, fs, in');
      UnwindPops(b, in'.sp, PopCount(fs, in'.sp, in'.addr));
    }
  }

  lemma {:induction false} CallFrames(b: Books, lastDump: Cost, in': BlockEntry)
    requires Sound(b) && AtLeast(b.cost, lastDump) && Descending(b.frames)
    requires !RealReturn(Calls(b.frames), in') && !ReplacesTop(Calls(b.frames), in')
    ensures Enter(b, lastDump, in').frames == FramesAfter(b, in')
  {
    var fs, cs := b.frames, Calls(b.frames);
    hide Sound, Descending, Matched, Emulated, PopsOnJump, UnwindAndPush, Unwind, RealReturn, ReturnsFrom;
    Classified(cs, fs, in');
    UnwindFrames(b, in', in'.kind == Call || JumpAsCall(cs, in'), JumpAsCall(cs, in'));
    KeptAll(cs, in'.sp);
  }

  /** A block entry leaves on the stack exactly the calls that stay and the one that begins,
      with the present counters. */
  lemma {:induction false} EntryFrames(b: Books, lastDump: Cost, in': BlockEntry)
    requires Sound(b) && AtLeast(b.cost, lastDump) && Descending(b.frames)
    ensures Enter(b, lastDump, in').frames == FramesAfter(b, in')
  {
    hide Enter, FramesAfter, RealReturn, Sound, Descending;
    var cs := Calls(b.frames);
    if ReplacesTop(cs, in') {
      ReplaceFrames(b, lastDump, in');
    } else if RealReturn(cs, in') {
      ReturnFrames(b, lastDump, in');
    } else {
      CallFrames(b, lastDump, in');
    }
  }

  lemma {:induction false} KeptAll(cs: seq<ActiveCall>, sp: nat)
    ensures Kept(cs, sp) == |cs| <==> forall k :: 0 <= k < |cs| ==> cs[k].sp >= sp
  {
  }

  /** An entry makes the stack one higher if and only if it is a call or a jump taken for one
      that replaces none, and no recorded stack pointer is below the program's. */
  lemma {:induction false} OneHigherIff(b: Books, lastDump: Cost, in': BlockEntry)
    requires Sound(b) && AtLeast(b.cost, lastDump) && Descending(b.frames)
    ensures var fs, cs := b.frames, Calls(b.frames);
            |Enter(b, lastDump, in').frames| == |fs| + 1 <==>
            !RealReturn(cs, in') && !ReplacesTop(cs, in') && (in'.kind == Call || JumpAsCall(cs, in')) &&
            forall k :: 0 <= k < |fs| ==> fs[k].sp >= in'.sp
  {
    hide Sound, Descending, ReturnsFrom, Enter;
    EntryFrames(b, lastDump, in');
    KeptAll(Calls(b.frames), in'.sp);
  }
}
