/** Callgrind's shadow call stack: unwinding to the program's stack pointer, and the way each
    executed basic block is classified as call, return or jump.  Stack pointers recorded on
    the stack never increase from bottom to top, which makes the number of frames an unwind
    pops predictable. */
module ShadowStack {
  import opened Arith
  import opened Options
  import opened CallCosts
  import opened ExecCounts

  // ------------------------------------------------------------------ unwinding

  datatype Unwound = Unwound(books: Books, count: nat)

  /** Pop calls while the recorded stack pointer is below `sp`, or equal to it and pops are
      still asked for. */
  function Unwind(b: Books, sp: nat, minpops: int): (u: Unwound)
    requires Sound(b)
    ensures Sound(u.books) && u.books.cost == b.cost && u.count <= |b.frames|
    ensures u.books.frames == b.frames[..|b.frames|-u.count]
    decreases |b.frames|
  {
    if b.frames == [] then Unwound(b, 0)
    else
      var top := b.frames[|b.frames|-1];
      if top.sp < sp || (top.sp == sp && minpops > 0) then
        var u := Unwind(Pop(b), sp, minpops - 1);
        Unwound(u.books, u.count + 1)
      else Unwound(b, 0)
  }

  /** Recorded stack pointers never increase from bottom to top. */
  ghost predicate Descending(fs: seq<Frame>)
  {
    forall i, j :: 0 <= i < j < |fs| ==> fs[i].sp >= fs[j].sp
  }

  /** Number of frames with a stack pointer below, and equal to, `sp`. */
  function Below(fs: seq<Frame>, sp: nat): (n: nat)
    ensures n <= |fs|
  {
    if fs == [] then 0 else Below(fs[..|fs|-1], sp) + if fs[|fs|-1].sp < sp then 1 else 0
  }

  function Equal(fs: seq<Frame>, sp: nat): (n: nat)
    ensures n <= |fs|
  {
    if fs == [] then 0 else Equal(fs[..|fs|-1], sp) + if fs[|fs|-1].sp == sp then 1 else 0
  }


  lemma {:induction false} NoneBelow(fs: seq<Frame>, sp: nat)
    requires forall i :: 0 <= i < |fs| ==> fs[i].sp >= sp
    ensures Below(fs, sp) == 0
    ensures (forall i :: 0 <= i < |fs| ==> fs[i].sp > sp) ==> Equal(fs, sp) == 0
  {
    if fs != [] { NoneBelow(fs[..|fs|-1], sp); }
  }

  /** Number of frames an unwind pops, from the recorded stack pointers alone. */
  function Pops(fs: seq<Frame>, sp: nat, minpops: int): (n: nat)
    ensures n <= |fs|
  {
    if fs != [] && (fs[|fs|-1].sp < sp || (fs[|fs|-1].sp == sp && minpops > 0)) then
      1 + Pops(fs[..|fs|-1], sp, minpops - 1)
    else 0
  }

  lemma {:induction false} UnwindPops(b: Books, sp: nat, minpops: int)
    requires Sound(b)
    ensures Unwind(b, sp, minpops).count == Pops(b.frames, sp, minpops)
    decreases |b.frames|
  {
    hide Sound, Pop;
    if b.frames != [] {
      var top := b.frames[|b.frames|-1];
      if top.sp < sp || (top.sp == sp && minpops > 0) {
        UnwindPops(Pop(b), sp, minpops - 1);
      }
    }
  }

  lemma {:induction false} PopsCount(fs: seq<Frame>, sp: nat, minpops: int)
    requires Descending(fs)
    ensures var k, e := Below(fs, sp), Equal(fs, sp);
            Pops(fs, sp, minpops) == Max(k, Min(k + e, minpops))
  {
    if fs != [] {
      var rest, top := fs[..|fs|-1], fs[|fs|-1];
      if top.sp < sp || (top.sp == sp && minpops > 0) {
        PopsCount(rest, sp, minpops - 1);
        if top.sp == sp {
          NoneBelow(rest, sp);
        }
      } else {
        NoneBelow(fs, sp);
      }
    }
  }

  /** An unwind pops the frames below `sp`, and of those equal to it just enough to reach
      the number asked for. */
  lemma {:induction false} UnwindCount(b: Books, sp: nat, minpops: int)
    requires Sound(b) && Descending(b.frames)
    ensures var k, e := Below(b.frames, sp), Equal(b.frames, sp);
            Unwind(b, sp, minpops).count == Max(k, Min(k + e, minpops))
  {
    UnwindPops(b, sp, minpops);
    PopsCount(b.frames, sp, minpops);
  }

  ghost predicate AllFrom(fs: seq<Frame>, sp: nat)
  {
    forall i :: 0 <= i < |fs| ==> fs[i].sp >= sp
  }

  /** After an unwind no frame is below `sp`. */
  lemma {:induction false} UnwindSyncs(b: Books, sp: nat, minpops: int)
    requires Sound(b) && Descending(b.frames)
    ensures var fs := Unwind(b, sp, minpops).books.frames; Descending(fs) && AllFrom(fs, sp)
    decreases |b.frames|
  {
    hide Sound;
    if b.frames != [] {
      var top := b.frames[|b.frames|-1];
      if top.sp < sp || (top.sp == sp && minpops > 0) {
        UnwindSyncs(Pop(b), sp, minpops - 1);
      }
    }
  }

  // ------------------------------------------------------------------ one basic block

  datatype JumpKind = Fall | Jump | Call | Return

  /** What is known when a block is entered: the program's stack pointer, the block's
      address, how the previous block (if any) was left, whether the jump crosses into a
      function entry, section or object, whether the function left is popped on jumps,
      whether the function stack stands at its bottom marker, the jCC of a call (none if
      the callee is skipped) and its return address, and the callee-to-be of an underflow. */
  datatype BlockEntry = BlockEntry(sp: nat, addr: nat, hasLast: bool, kind: JumpKind, crossing: bool,
                                   popOnJump: bool, atMarker: bool, jcc: Option<Arc>, ret: nat,
                                   underflowJcc: Arc)

  const MAX_ADDR: nat := 0xffff_ffff_ffff_ffff

  /** How many calls a return leaves: 0 means it matches none and is a jump.  With an
      unchanged stack pointer, frames are searched downwards for the return address. */
  function PopCount(fs: seq<Frame>, sp: nat, addr: nat): (n: nat)
    requires fs != []
  {
    var top := fs[|fs|-1];
    if sp < top.sp then 0
    else if sp == top.sp then MatchReturn(fs, sp, addr, 1)
    else 1
  }

  function MatchReturn(fs: seq<Frame>, sp: nat, addr: nat, n: nat): (r: nat)
    requires fs != []
    decreases |fs|
  {
    if fs[|fs|-1].ret == addr then n
    else if |fs| > 1 && fs[|fs|-2].sp == sp then MatchReturn(fs[..|fs|-1], sp, addr, n + 1)
    else 0
  }

  /** The jump kind after matching a return against the stack. */
  function Matched(fs: seq<Frame>, in': BlockEntry): (k: JumpKind)
  {
    if in'.kind == Return && fs != [] && PopCount(fs, in'.sp, in'.addr) == 0 then Jump else in'.kind
  }

  /** Is this jump turned into a call?  A return without a call is, and a jump into another
      function, section or object. */
  predicate Emulated(fs: seq<Frame>, in': BlockEntry)
  {
    in'.hasLast && Matched(fs, in') != Return && Matched(fs, in') != Call &&
    ((in'.kind == Return && fs != []) || in'.crossing)
  }

  /** Is the top call popped because the function being left is popped on jumps? */
  predicate PopsOnJump(fs: seq<Frame>, in': BlockEntry)
  {
    Emulated(fs, in') && in'.popOnJump && fs != [] && fs[|fs|-1].jcc.Some?
  }

  /** A return below the bottom of the stack pushes a call that is thought to have lasted
      since the last dump, and pops it again. */
  function Underflow(b: Books, lastDump: Cost, in': BlockEntry): (r: Books)
    requires Sound(b) && AtLeast(b.cost, lastDump)
    ensures Sound(r) && r.frames == b.frames && r.cost == b.cost
  {
    var f := Frame(Some(in'.underflowJcc), lastDump, MAX_ADDR, 0);
    assert (b.frames + [f])[..|b.frames|] == b.frames;
    Pop(Push(b, f))
  }

  /** A block entered by a return that matches the stack, or underflows it. */
  function EnterReturn(b: Books, lastDump: Cost, in': BlockEntry): (r: Books)
    requires Sound(b) && AtLeast(b.cost, lastDump)
    ensures Sound(r) && r.cost == b.cost
  {
    if b.frames == [] || in'.atMarker then Underflow(b, lastDump, in')
    else Unwind(b, in'.sp, PopCount(b.frames, in'.sp, in'.addr)).books
  }

  /** Unwind to `sp`; if nothing was popped and this is a call, push it. */
  function UnwindAndPush(b: Books, in': BlockEntry, sp: nat, call: bool, emulated: bool): (r: Books)
    requires Sound(b)
    ensures Sound(r) && r.cost == b.cost
  {
    var u := Unwind(b, sp, 0);
    if u.count > 0 || !call then u.books
    else
      var rest := u.books.frames;
      var recorded := if emulated && rest != [] then rest[|rest|-1].sp else sp;
      Push(u.books, Frame(in'.jcc, u.books.cost, recorded, in'.ret))
  }

  /** `setup_bbcc` as far as the call stack goes. */
  function Enter(b: Books, lastDump: Cost, in': BlockEntry): (r: Books)
    requires Sound(b) && AtLeast(b.cost, lastDump)
    ensures Sound(r) && r.cost == b.cost
  {
    var fs := b.frames;
    if Emulated(fs, in') then
      if PopsOnJump(fs, in') then UnwindAndPush(Pop(b), in', fs[|fs|-1].sp, true, true)
      else UnwindAndPush(b, in', in'.sp, true, true)
    else if Matched(fs, in') == Return then EnterReturn(b, lastDump, in')
    else UnwindAndPush(b, in', in'.sp, Matched(fs, in') == Call, false)
  }

  lemma {:induction false} DescendingPush(fs: seq<Frame>, f: Frame)
    requires Descending(fs) && (fs != [] ==> f.sp <= fs[|fs|-1].sp)
    ensures Descending(fs + [f])
  {
    var r := fs + [f];
    forall i, j | 0 <= i < j < |r| ensures r[i].sp >= r[j].sp {
      assert i == |fs| - 1 || fs[i].sp >= fs[|fs|-1].sp;
    }
  }

  lemma {:induction false} UnwindAndPushSyncs(b: Books, in': BlockEntry, sp: nat, call: bool, emulated: bool)
    requires Sound(b) && Descending(b.frames)
    ensures var fs := UnwindAndPush(b, in', sp, call, emulated).frames; Descending(fs) && AllFrom(fs, sp)
  {
    UnwindSyncs(b, sp, 0);
    var u := Unwind(b, sp, 0);
    var rest := u.books.frames;
    var recorded := if emulated && rest != [] then rest[|rest|-1].sp else sp;
    DescendingPush(rest, Frame(in'.jcc, u.books.cost, recorded, in'.ret));
  }

  /** Every block keeps the recorded stack pointers descending. */
  lemma {:induction false} EnterKeepsDescending(b: Books, lastDump: Cost, in': BlockEntry)
    requires Sound(b) && AtLeast(b.cost, lastDump) && Descending(b.frames)
    ensures Descending(Enter(b, lastDump, in').frames)
  {
    var fs := b.frames;
    if Emulated(fs, in') {
      if PopsOnJump(fs, in') {
        UnwindAndPushSyncs(Pop(b), in', fs[|fs|-1].sp, true, true);
      } else {
        UnwindAndPushSyncs(b, in', in'.sp, true, true);
      }
    } else if Matched(fs, in') == Return {
      if fs != [] {
        UnwindSyncs(b, in'.sp, PopCount(fs, in'.sp, in'.addr));
      }
    } else {
      UnwindAndPushSyncs(b, in', in'.sp, Matched(fs, in') == Call, false);
    }
  }

  /** The two ways stale frames can stay behind: the bottom marker suppresses a return's
      unwind, and a pop on jump unwinds to the popped frame's pointer instead of the
      program's. */
  predicate StaysBehind(fs: seq<Frame>, in': BlockEntry)
  {
    fs != [] &&
    ((Matched(fs, in') == Return && in'.atMarker && fs[|fs|-1].sp < in'.sp) ||
     (PopsOnJump(fs, in') && fs[Max(|fs| - 2, 0)].sp < in'.sp))
  }

  lemma {:induction false} PopOnJumpPushes(b: Books, lastDump: Cost, in': BlockEntry)
    requires Sound(b) && AtLeast(b.cost, lastDump) && Descending(b.frames) && PopsOnJump(b.frames, in')
    ensures var fs, rs := b.frames, Enter(b, lastDump, in').frames;
            |rs| == |fs| && rs[..|fs|-1] == fs[..|fs|-1] &&
            rs[|fs|-1] == Frame(in'.jcc, b.cost, fs[Max(|fs| - 2, 0)].sp, in'.ret)
  {
    hide Sound;
    var fs := b.frames;
    var b' := Pop(b);
    UnwindPops(b', fs[|fs|-1].sp, 0);
  }

  lemma {:induction false} DescendingFloor(fs: seq<Frame>, sp: nat)
    requires Descending(fs) && fs != []
    ensures AllFrom(fs, sp) <==> fs[|fs|-1].sp >= sp
  {
  }

  lemma {:induction false} PopOnJumpSyncs(b: Books, lastDump: Cost, in': BlockEntry)
    requires Sound(b) && AtLeast(b.cost, lastDump) && Descending(b.frames) && PopsOnJump(b.frames, in')
    ensures AllFrom(Enter(b, lastDump, in').frames, in'.sp) <==> b.frames[Max(|b.frames| - 2, 0)].sp >= in'.sp
  {
    PopOnJumpPushes(b, lastDump, in');
    EnterKeepsDescending(b, lastDump, in');
    DescendingFloor(Enter(b, lastDump, in').frames, in'.sp);
  }

  lemma {:induction false} ReturnSyncs(b: Books, lastDump: Cost, in': BlockEntry)
    requires Sound(b) && AtLeast(b.cost, lastDump) && Descending(b.frames)
    ensures AllFrom(EnterReturn(b, lastDump, in').frames, in'.sp) <==>
            b.frames == [] || !in'.atMarker || b.frames[|b.frames|-1].sp >= in'.sp
  {
    if b.frames != [] {
      UnwindSyncs(b, in'.sp, PopCount(b.frames, in'.sp, in'.addr));
      DescendingFloor(b.frames, in'.sp);
    }
  }

  /** A block leaves the shadow stack in step with the program's stack pointer (no recorded
      pointer below it) if and only if it is not one of those two cases. */
  lemma {:induction false} EnterSyncsIff(b: Books, lastDump: Cost, in': BlockEntry)
    requires Sound(b) && AtLeast(b.cost, lastDump) && Descending(b.frames)
    ensures AllFrom(Enter(b, lastDump, in').frames, in'.sp) <==> !StaysBehind(b.frames, in')
  {
    var fs := b.frames;
    if PopsOnJump(fs, in') {
      PopOnJumpSyncs(b, lastDump, in');
    } else if Emulated(fs, in') {
      UnwindAndPushSyncs(b, in', in'.sp, true, true);
    } else if Matched(fs, in') == Return {
      ReturnSyncs(b, lastDump, in');
    } else {
      UnwindAndPushSyncs(b, in', in'.sp, Matched(fs, in') == Call, false);
    }
  }

  /** A call to a skipped function leaves a frame but nothing on the function stack, which may
      then still stand at its marker: the return from it does not unwind that frame. */
  lemma {:induction false} SkippedFrameStays(cost: Cost, jcc: Arc)
    ensures var call := BlockEntry(16, 0, true, Call, false, false, false, None, 8, jcc);
            var back := BlockEntry(24, 8, true, Return, false, false, true, None, 0, jcc);
            var b := Enter(Fresh(cost), cost, call);
            StaysBehind(b.frames, back) && Enter(b, cost, back).frames == [Frame(None, cost, 16, 8)]
  {
    var call := BlockEntry(16, 0, true, Call, false, false, false, None, 8, jcc);
    assert Enter(Fresh(cost), cost, call).frames == [Frame(None, cost, 16, 8)];
  }

  /** A jump out of a function that is popped on jumps, after the program has dropped its
      frame: the call that takes its place is recorded where the old one was. */
  lemma {:induction false} PoppedFrameStays(cost: Cost, jcc: Arc)
    ensures var call := BlockEntry(16, 0, true, Call, false, false, false, Some(jcc), 8, jcc);
            var jump := BlockEntry(24, 40, true, Jump, true, true, false, Some(jcc), 0, jcc);
            var b := Enter(Fresh(cost), cost, call);
            StaysBehind(b.frames, jump) && Enter(b, cost, jump).frames == [Frame(Some(jcc), cost, 16, 0)]
  {
    var call := BlockEntry(16, 0, true, Call, false, false, false, Some(jcc), 8, jcc);
    assert Enter(Fresh(cost), cost, call).frames == [Frame(Some(jcc), cost, 16, 8)];
  }

  // ------------------------------------------------------------------ blocks are made of accounted steps

  function DoAll(b: Books, ops: seq<Op>, code: nat -> Block): (r: Books)
    requires Possible(b, ops, code)
    decreases |ops|
  {
    if ops == [] then b else DoAll(Do(b, ops[0], code), ops[1..], code)
  }

  lemma {:induction false} DoAllConcat(b: Books, p: seq<Op>, q: seq<Op>, code: nat -> Block)
    requires Possible(b, p, code) && Possible(DoAll(b, p, code), q, code)
    ensures Possible(b, p + q, code) && DoAll(b, p + q, code) == DoAll(DoAll(b, p, code), q, code)
    decreases |p|
  {
    if p == [] {
      assert p + q == q;
    } else {
      assert (p + q)[0] == p[0] && (p + q)[1..] == p[1..] + q;
      DoAllConcat(Do(b, p[0], code), p[1..], q, code);
    }
  }

  lemma {:induction false} OneStep(b: Books, op: Op, code: nat -> Block)
    requires Sound(b) && Enabled(b, op, code)
    ensures Possible(b, [op], code) && DoAll(b, [op], code) == Do(b, op, code)
  {
    assert [op][1..] == [];
  }

  /** Returns only. */
  function PopOps(n: nat): (ops: seq<Op>)
    ensures |ops| == n
  {
    seq(n, _ => PopOp)
  }

  lemma {:induction false} PopFirst(b: Books, n: nat, code: nat -> Block)
    requires Sound(b) && b.frames != [] && Possible(Pop(b), PopOps(n), code)
    ensures Possible(b, PopOps(n + 1), code) && DoAll(b, PopOps(n + 1), code) == DoAll(Pop(b), PopOps(n), code)
  {
    assert PopOps(n + 1)[0] == PopOp && PopOps(n + 1)[1..] == PopOps(n);
  }

  lemma {:induction false} UnwindIsARun(b: Books, code: nat -> Block, sp: nat, minpops: int)
    requires Sound(b)
    ensures var ops := PopOps(Pops(b.frames, sp, minpops));
            Possible(b, ops, code) && DoAll(b, ops, code) == Unwind(b, sp, minpops).books
    decreases |b.frames|
  {
    var n := Pops(b.frames, sp, minpops);
    if n > 0 {
      assert n == 1 + Pops(Pop(b).frames, sp, minpops - 1);
      UnwindIsARun(Pop(b), code, sp, minpops - 1);
      PopFirst(b, n - 1, code);
    } else {
      assert PopOps(0) == [];
    }
  }

  /** The frame pushed for a call on top of `rest`. */
  function Pushed(rest: seq<Frame>, cost: Cost, in': BlockEntry, sp: nat, emulated: bool): (f: Frame)
  {
    Frame(in'.jcc, cost, if emulated && rest != [] then rest[|rest|-1].sp else sp, in'.ret)
  }

  /** Unwinding and pushing as calls and returns, from the stack alone. */
  function UnwindAndPushOps(fs: seq<Frame>, cost: Cost, in': BlockEntry, sp: nat, call: bool, emulated: bool): (ops: seq<Op>)
  {
    var n := Pops(fs, sp, 0);
    if n > 0 || !call then PopOps(n) else [PushOp(Pushed(fs, cost, in', sp, emulated))]
  }

  /** The arcs of a block entry leave their callers at one of their exits. */
  predicate EntryFits(in': BlockEntry, code: nat -> Block)
  {
    (in'.jcc.Some? ==> Fits(in'.jcc.value, code)) && Fits(in'.underflowJcc, code)
  }

  lemma {:induction false} UnwindAndPushIsARun(b: Books, code: nat -> Block, in': BlockEntry, sp: nat, call: bool, emulated: bool)
    requires Sound(b) && EntryFits(in', code)
    ensures var ops := UnwindAndPushOps(b.frames, b.cost, in', sp, call, emulated);
            Possible(b, ops, code) && DoAll(b, ops, code) == UnwindAndPush(b, in', sp, call, emulated)
  {
    UnwindIsARun(b, code, sp, 0);
    UnwindPops(b, sp, 0);
    if Pops(b.frames, sp, 0) == 0 && call {
      OneStep(b, PushOp(Pushed(b.frames, b.cost, in', sp, emulated)), code);
    }
  }

  function UnderflowFrame(lastDump: Cost, in': BlockEntry): (f: Frame)
  {
    Frame(Some(in'.underflowJcc), lastDump, MAX_ADDR, 0)
  }

  lemma {:induction false} UnderflowIsARun(b: Books, lastDump: Cost, code: nat -> Block, in': BlockEntry)
    requires Sound(b) && AtLeast(b.cost, lastDump) && EntryFits(in', code)
    ensures var ops := [PushOp(UnderflowFrame(lastDump, in')), PopOp];
            Possible(b, ops, code) && DoAll(b, ops, code) == Underflow(b, lastDump, in')
  {
    var f := UnderflowFrame(lastDump, in');
    OneStep(b, PushOp(f), code);
    OneStep(Push(b, f), PopOp, code);
    DoAllConcat(b, [PushOp(f)], [PopOp], code);
    assert [PushOp(f)] + [PopOp] == [PushOp(f), PopOp];
  }

  /** The calls and returns a block entry stands for. */
  function EnterOps(b: Books, lastDump: Cost, in': BlockEntry): (ops: seq<Op>)
  {
    var fs := b.frames;
    if PopsOnJump(fs, in') then
      [PopOp] + UnwindAndPushOps(fs[..|fs|-1], b.cost, in', fs[|fs|-1].sp, true, true)
    else if Emulated(fs, in') then UnwindAndPushOps(fs, b.cost, in', in'.sp, true, true)
    else if Matched(fs, in') == Return then
      if fs == [] || in'.atMarker then [PushOp(UnderflowFrame(lastDump, in')), PopOp]
      else PopOps(Pops(fs, in'.sp, PopCount(fs, in'.sp, in'.addr)))
    else UnwindAndPushOps(fs, b.cost, in', in'.sp, Matched(fs, in') == Call, false)
  }

  /** What a block does to the call stack is a run of accounted calls and returns. */
  lemma {:induction false} EnterIsARun(b: Books, lastDump: Cost, code: nat -> Block, in': BlockEntry)
    requires Sound(b) && AtLeast(b.cost, lastDump) && EntryFits(in', code)
    ensures var ops := EnterOps(b, lastDump, in');
            Possible(b, ops, code) && DoAll(b, ops, code) == Enter(b, lastDump, in')
  {
    hide Sound, Unwind, DoAll, Possible, UnwindAndPush, UnwindAndPushOps, PopOps, Pops;
    var fs := b.frames;
    if PopsOnJump(fs, in') {
      OneStep(b, PopOp, code);
      UnwindAndPushIsARun(Pop(b), code, in', fs[|fs|-1].sp, true, true);
      DoAllConcat(b, [PopOp], UnwindAndPushOps(fs[..|fs|-1], b.cost, in', fs[|fs|-1].sp, true, true), code);
    } else if Emulated(fs, in') {
      UnwindAndPushIsARun(b, code, in', in'.sp, true, true);
    } else if Matched(fs, in') == Return {
      if fs == [] || in'.atMarker {
        UnderflowIsARun(b, lastDump, code, in');
      } else {
        UnwindIsARun(b, code, in'.sp, PopCount(fs, in'.sp, in'.addr));
      }
    } else {
      UnwindAndPushIsARun(b, code, in', in'.sp, Matched(fs, in') == Call, false);
    }
  }
}
