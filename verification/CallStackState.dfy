/** The mutable shadow stack: an array of entries that grows on demand, the stack index, the
    costs it feeds, and what dumps have written of them. */
module CallStackState {
  import opened Arith
  import opened Options
  import opened CallCosts
  import opened ExecCounts
  import opened ShadowStack
  import opened CallEntries

  const N_CALL_STACK_INITIAL_ENTRIES: nat := 500

  /** Array size after making room for index `i`: doubled once, and again while `i` is
      greater. */
  function Doubled(size: nat, i: nat): (n: nat)
    requires size > 0
    ensures n >= size && i <= n
    decreases if i > size then i - size else 0
  {
    if i > size then Doubled(2 * size, i) else size
  }

  function GrownSize(size: nat, i: nat): (n: nat)
    requires size > 0
    ensures i <= n && size <= n
  {
    if i < size then size else Doubled(2 * size, i)
  }

  /** Is `i` reached from `size` by doubling? */
  predicate DoublesTo(size: nat, i: nat)
    requires size > 0
    decreases if i > size then i - size else 0
  {
    i == size || (i > size && DoublesTo(2 * size, i))
  }

  lemma {:induction false} DoubledRoom(size: nat, i: nat)
    requires size > 0
    ensures i == Doubled(size, i) <==> DoublesTo(size, i)
    decreases if i > size then i - size else 0
  {
    if i > size { DoubledRoom(2 * size, i); }
  }

  /** Growing makes room for index `i` except when `i` is the size doubled some times; a
      push, which asks for at most the current size, always gets room. */
  lemma {:induction false} GrownRoom(size: nat, i: nat)
    requires size > 0
    ensures i < GrownSize(size, i) <==> !DoublesTo(2 * size, i)
    ensures i <= size ==> i < GrownSize(size, i)
  {
    DoubledRoom(2 * size, i);
  }

  /** Index 1000 of an array of 500 gets no room.  The only caller, the push, never asks for
      more than one past the entries in use. */
  lemma {:induction false} NoRoomAtDouble()
    ensures GrownSize(500, 1000) == 1000
  {
    DoubledRoom(1000, 1000);
  }

  lemma {:induction false} UnwindStep(b: Books, sp: nat, minpops: int)
    requires Sound(b) && b.frames != []
    ensures var top, u := b.frames[|b.frames|-1], Unwind(b, sp, minpops);
            if top.sp < sp || (top.sp == sp && minpops > 0) then
              var v := Unwind(Pop(b), sp, minpops - 1);
              u.books == v.books && u.count == v.count + 1
            else u == Unwound(b, 0)
  {
  }

  /** Clear the jCCs in the list of exit `p` of the caller `c`, or in all lists before it. */
  function ListCleared(jccs: map<Arc, Cost>, c: nat, p: nat, n: nat): (r: map<Arc, Cost>)
  {
    map j | j in jccs :: if j.from == c && j.exit == p then Zeros(n) else jccs[j]
  }

  function ListsCleared(jccs: map<Arc, Cost>, c: nat, p: nat, n: nat): (r: map<Arc, Cost>)
  {
    map j | j in jccs :: if j.from == c && j.exit < p then Zeros(n) else jccs[j]
  }

  /** Add the costs in the list of exit `p` to those written. */
  function ListWritten(written: map<Arc, Cost>, jccs: map<Arc, Cost>, c: nat, p: nat, n: nat): (r: map<Arc, Cost>)
    ensures forall j, e :: 0 <= e < n ==>
              At(r, j, e) == At(written, j, e) + if j.from == c && j.exit == p then At(jccs, j, e) else 0
  {
    map j | j in written.Keys + jccs.Keys ::
      if j.from == c && j.exit == p then Plus(CostOf(written, j, n), CostOf(jccs, j, n)) else CostOf(written, j, n)
  }

  /** Writing moves costs and changes no sum. */
  ghost predicate Moved(before: map<Arc, Cost>, after: map<Arc, Cost>, held: map<Arc, Cost>, left: map<Arc, Cost>, n: nat)
  {
    forall j, e :: 0 <= e < n ==> At(after, j, e) + At(left, j, e) == At(before, j, e) + At(held, j, e)
  }

  lemma {:induction false} MovedOn(w0: map<Arc, Cost>, w1: map<Arc, Cost>, w2: map<Arc, Cost>,
                                   h0: map<Arc, Cost>, h1: map<Arc, Cost>, h2: map<Arc, Cost>, n: nat)
    requires Moved(w0, w1, h0, h1, n) && Moved(w1, w2, h1, h2, n)
    ensures Moved(w0, w2, h0, h2, n)
  {
    forall j, e | 0 <= e < n ensures At(w2, j, e) + At(h2, j, e) == At(w0, j, e) + At(h0, j, e) {
      assert At(w2, j, e) + At(h2, j, e) == At(w1, j, e) + At(h1, j, e);
    }
  }

  lemma {:induction false} NextListCleared(jccs: map<Arc, Cost>, c: nat, p: nat, n: nat)
    ensures ListCleared(ListsCleared(jccs, c, p, n), c, p, n) == ListsCleared(jccs, c, p + 1, n)
    ensures ListCleared(ListsCleared(jccs, c, p + 1, n), c, p, n) == ListsCleared(jccs, c, p + 1, n)
  {
    hide Zeros;
  }

  lemma {:induction false} NoneCleared(w: map<Arc, Cost>, jccs: map<Arc, Cost>, code: nat -> Block, n: nat)
    ensures Cleared(jccs, {}, code, n) == jccs && Moved(w, w, jccs, jccs, n)
  {
  }

  lemma {:induction false} ClearedNext(jccs: map<Arc, Cost>, done: set<nat>, c: nat, code: nat -> Block, n: nat)
    ensures ListsCleared(Cleared(jccs, done, code, n), c, Stop(code(c)) + 1, n) == Cleared(jccs, done + {c}, code, n)
  {
  }

  lemma {:induction false} SettleFromStep(b: Books, i: nat)
    requires Sound(b) && i < |b.frames|
    ensures SettleFrom(b, i) == SettleFrom(Settle(b, i), i + 1)
  {
  }

  class CallStack {
    var entry: array<Frame>
    var sp: nat
    var cost: Cost
    var jccs: map<Arc, Cost>
    var returned: set<nat>
    var lastDump: Cost
    var written: map<Arc, Cost>
    const code: nat -> Block

    /** What pushing and popping keeps. */
    ghost predicate Shaped()
      reads this, entry
    {
      sp < entry.Length && Sound(View()) && AtLeast(cost, lastDump)
    }

    ghost predicate Valid()
      reads this, entry
    {
      Shaped() && Descending(View().frames)
    }

    ghost function View(): Books
      requires sp <= entry.Length
      reads this, entry
    {
      Books(cost, entry[..sp], jccs, returned)
    }

    constructor (nEvents: nat, code: nat -> Block)
      ensures Valid() && View() == Fresh(Zeros(nEvents)) && lastDump == cost && written == map[] && this.code == code
    {
      this.code := code;
      entry := new Frame[N_CALL_STACK_INITIAL_ENTRIES](_ => Frame(None, [], 0, 0));
      sp, cost, jccs, returned := 0, Zeros(nEvents), map[], {};
      lastDump, written := Zeros(nEvents), map[];
    }

    /** Add to the running total. */
    method Count(delta: Cost)
      requires Valid() && |delta| == |cost|
      modifies this`cost
      ensures Valid() && View() == Charge(old(View()), delta)
    {
      cost := Plus(cost, delta);
    }

    /** Make room for index `i`; entries in use are kept. */
    method EnsureStackSize(i: nat)
      requires Shaped()
      modifies this`entry
      ensures entry.Length == GrownSize(old(entry.Length), i)
      ensures Shaped() && View() == old(View())
      ensures i < old(entry.Length) ==> entry == old(entry)
      ensures entry == old(entry) || fresh(entry)
    {
      if i < entry.Length {
        return;
      }
      var size := 2 * entry.Length;
      while i > size
        invariant size > 0 && Doubled(size, i) == Doubled(2 * entry.Length, i)
        invariant entry == old(entry)
        decreases if i > size then i - size else 0
      {
        size := 2 * size;
      }
      var bigger := new Frame[size](_ => Frame(None, [], 0, 0));
      for k := 0 to entry.Length
        invariant forall m :: 0 <= m < k ==> bigger[m] == old(entry[m])
        invariant entry == old(entry) && entry[..] == old(entry[..]) && sp == old(sp)
      {
        bigger[k] := entry[k];
      }
      entry := bigger;
      assert entry[..sp] == old(entry[..sp]);
    }

    /** Push a call; its counters are the current ones. */
    method PushCallStack(jcc: Option<Arc>, sp_: nat, ret: nat)
      requires Shaped()
      modifies this, entry
      ensures Shaped() && View() == Push(old(View()), Frame(jcc, old(cost), sp_, ret))
      ensures lastDump == old(lastDump) && written == old(written)
      ensures entry == old(entry) || fresh(entry)
    {
      EnsureStackSize(sp + 1);
      entry[sp] := Frame(jcc, cost, sp_, ret);
      sp := sp + 1;
      assert entry[..sp] == old(View()).frames + [Frame(jcc, cost, sp_, ret)];
    }

    method PopCallStack()
      requires Shaped() && sp > 0
      modifies this
      ensures Shaped() && View() == Pop(old(View())) && entry == old(entry)
      ensures lastDump == old(lastDump) && written == old(written)
    {
      var lower := entry[sp-1];
      assert View().frames[..sp-1] == entry[..sp-1];
      if lower.jcc.Some? {
        var j := lower.jcc.value;
        jccs := AddDiff(jccs, j, lower.enter, cost);
        if lower.enter != cost {
          returned := returned + {j.from};
        }
      }
      sp := sp - 1;
    }

    /** One round of unwinding: pop the top call if it is to go. */
    method PopIfDue(sp_: nat, minpops: int, ghost u: Unwound) returns (popped: bool)
      requires Shaped() && u == Unwind(View(), sp_, minpops)
      modifies this
      ensures Shaped() && entry == old(entry) && (popped ==> sp < old(sp))
      ensures lastDump == old(lastDump) && written == old(written)
      ensures popped ==> u.count > 0 && Unwound(u.books, u.count - 1) == Unwind(View(), sp_, minpops - 1)
      ensures !popped ==> u == Unwound(View(), 0)
    {
      if sp == 0 {
        return false;
      }
      UnwindStep(View(), sp_, minpops);
      var top := entry[sp-1];
      popped := top.sp < sp_ || (top.sp == sp_ && minpops > 0);
      if popped {
        PopCallStack();
      }
    }

    /** The unwinding loop. */
    method PopWhileDue(sp_: nat, minpops: int) returns (count: nat)
      requires Shaped()
      modifies this
      ensures Shaped() && Unwound(View(), count) == Unwind(old(View()), sp_, minpops) && entry == old(entry)
      ensures lastDump == old(lastDump) && written == old(written)
    {
      count := 0;
      var going, left := true, minpops;
      ghost var all := Unwind(View(), sp_, minpops);
      ghost var rest := all;
      while going
        invariant Shaped() && entry == old(entry) && lastDump == old(lastDump) && written == old(written)
        invariant rest == Unwind(View(), sp_, left)
        invariant all == Unwound(rest.books, rest.count + count)
        invariant !going ==> rest == Unwound(View(), 0)
        decreases going, sp
      {
        going := PopIfDue(sp_, left, rest);
        if going {
          rest := Unwound(rest.books, rest.count - 1);
          count, left := count + 1, left - 1;
        }
      }
    }

    /** Pop calls to get in step with the stack pointer; returns how many: those below it, and
        of those equal to it just enough to reach the number asked for. */
    method UnwindCallStack(sp_: nat, minpops: int) returns (count: nat)
      requires Valid()
      modifies this
      ensures Valid() && Unwound(View(), count) == Unwind(old(View()), sp_, minpops) && entry == old(entry)
      ensures var fs := old(View().frames);
              count == Max(Below(fs, sp_), Min(Below(fs, sp_) + Equal(fs, sp_), minpops)) &&
              View().frames == fs[..|fs|-count] && AllFrom(View().frames, sp_)
      ensures lastDump == old(lastDump) && written == old(written)
    {
      hide Sound, Unwind, Below, Equal;
      UnwindCount(View(), sp_, minpops);
      UnwindSyncs(View(), sp_, minpops);
      count := PopWhileDue(sp_, minpops);
    }

    /** `cs_addCount`: bring the jCCs of all active calls up to date. */
    method SettleActive()
      requires Shaped()
      modifies this`jccs, entry
      ensures Shaped() && View() == SettleFrom(old(View()), 0)
    {
      var i := 0;
      ghost var b, settled := View(), SettleFrom(View(), 0);
      while i < sp
        invariant 0 <= i <= sp && Shaped() && View() == b && SettleFrom(b, i) == settled
      {
        SettleFromStep(b, i);
        SettleOne(i);
        b := Settle(b, i);
        i := i + 1;
      }
    }

    method SettleOne(i: nat)
      requires Shaped() && i < sp
      modifies this`jccs, entry
      ensures Shaped() && View() == Settle(old(View()), i)
    {
      var e := entry[i];
      if e.jcc.None? {
        return;
      }
      jccs := AddDiff(jccs, e.jcc.value, e.enter, cost);
      entry[i] := e.(enter := cost);
      assert entry[..sp] == old(entry[..sp])[i := e.(enter := cost)];
    }

    /** Write out and clear the jCCs in the list of exit `p` of the caller `c`. */
    method PrintList(c: nat, p: nat)
      requires Shaped()
      modifies this`jccs, this`written
      ensures Shaped() && jccs == ListCleared(old(jccs), c, p, |cost|)
      ensures Moved(old(written), written, old(jccs), jccs, |cost|)
    {
      written := ListWritten(written, jccs, c, p, |cost|);
      jccs := ListCleared(jccs, c, p, |cost|);
    }

    /** The same in a walk that has dealt with all lists before that one, and perhaps with it:
        `w` and `h` are what was written and held when the walk began. */
    method PrintNext(c: nat, p: nat, ghost cleared: nat, ghost w: map<Arc, Cost>, ghost h: map<Arc, Cost>)
      requires Shaped() && p <= cleared <= p + 1
      requires jccs == ListsCleared(h, c, cleared, |cost|) && Moved(w, written, h, jccs, |cost|)
      modifies this`jccs, this`written
      ensures Shaped() && jccs == ListsCleared(h, c, p + 1, |cost|) && Moved(w, written, h, jccs, |cost|)
    {
      NextListCleared(h, c, p, |cost|);
      PrintList(c, p);
      MovedOn(w, old(written), written, h, old(jccs), jccs, |cost|);
    }

    /** One instruction of the walk: write the list of the exit it stands at, if the exit is
        here, and go on to the next exit unless it was the final one. */
    method PrintAt(c: nat, instr: nat, jmp: nat, ghost cleared: nat, ghost w: map<Arc, Cost>, ghost h: map<Arc, Cost>)
      returns (next: nat, ghost done: nat)
      requires Shaped() && instr < code(c).instrs && jmp <= |code(c).exits| && jmp <= cleared <= jmp + 1
      requires jccs == ListsCleared(h, c, cleared, |cost|) && Moved(w, written, h, jccs, |cost|)
      modifies this`jccs, this`written
      ensures next <= |code(c).exits| && next <= done <= next + 1
      ensures StopFrom(code(c), instr, jmp) == StopFrom(code(c), instr + 1, next)
      ensures Shaped() && jccs == ListsCleared(h, c, done, |cost|) && Moved(w, written, h, jccs, |cost|)
    {
      var bb := code(c);
      next, done := jmp, cleared;
      if instr == if jmp < |bb.exits| then bb.exits[jmp] else bb.end {
        PrintNext(c, jmp, cleared, w, h);
        done := jmp + 1;
      }
      if jmp < |bb.exits| && bb.exits[jmp] == instr {
        next := jmp + 1;
      }
    }

    /** The part of `fprint_bbcc` that writes the call arcs: the list of each exit the walk
        stands at, and at the end the list of the exit where it stopped. */
    method PrintBbcc(c: nat)
      requires Shaped()
      modifies this`jccs, this`written
      ensures Shaped() && jccs == ListsCleared(old(jccs), c, Stop(code(c)) + 1, |cost|)
      ensures Moved(old(written), written, old(jccs), jccs, |cost|)
    {
      var jmp: nat, instr: nat := 0, 0;
      ghost var cleared: nat := 0;
      assert ListsCleared(jccs, c, 0, |cost|) == jccs;
      while instr < code(c).instrs
        invariant 0 <= instr <= code(c).instrs && jmp <= |code(c).exits| && jmp <= cleared <= jmp + 1
        invariant StopFrom(code(c), instr, jmp) == Stop(code(c))
        invariant Shaped() && jccs == ListsCleared(old(jccs), c, cleared, |cost|)
        invariant Moved(old(written), written, old(jccs), jccs, |cost|)
      {
        jmp, cleared := PrintAt(c, instr, jmp, cleared, old(written), old(jccs));
        instr := instr + 1;
      }
      PrintNext(c, jmp, cleared, old(written), old(jccs));
    }

    /** Write out the profile. */
    method DumpProfile(executed: set<nat>)
      requires Valid()
      modifies this, entry
      ensures Valid() && View() == Dump(old(View()), executed, code) && lastDump == cost && entry == old(entry)
      ensures Moved(old(written), written, SettleFrom(old(View()), 0).jccs, jccs, |cost|)
    {
      hide Cleared, Visited, Moved, SettleFrom;
      SettleActive();
      ghost var s := View();
      var visited := Visited(Books(cost, entry[..sp], jccs, returned), executed);
      PrintAll(visited);
      returned, lastDump := {}, cost;
    }

    method PrintAll(visited: set<nat>)
      requires Shaped()
      modifies this`jccs, this`written
      ensures Shaped() && jccs == Cleared(old(jccs), visited, code, |cost|)
      ensures Moved(old(written), written, old(jccs), jccs, |cost|)
    {
      hide Cleared, Moved, Sound, ListsCleared, Stop;
      var todo := visited;
      NoneCleared(written, jccs, code, |cost|);
      assert visited - todo == {};
      while todo != {}
        invariant todo <= visited && Shaped()
        invariant jccs == Cleared(old(jccs), visited - todo, code, |cost|)
        invariant Moved(old(written), written, old(jccs), jccs, |cost|)
        decreases todo
      {
        var c :| c in todo;
        ghost var w, h := written, jccs;
        PrintBbcc(c);
        MovedOn(old(written), w, written, old(jccs), h, jccs, |cost|);
        ClearedNext(old(jccs), visited - todo, c, code, |cost|);
        assert visited - todo + {c} == visited - (todo - {c});
        todo := todo - {c};
      }
      assert visited - {} == visited;
    }

    /** How many calls a return leaves, searching frames with the same stack pointer. */
    method CountPops(sp_: nat, addr: nat) returns (n: nat)
      requires Shaped() && sp > 0
      ensures n == PopCount(entry[..sp], sp_, addr)
    {
      var up := sp - 1;
      n := 1;
      if sp_ < entry[up].sp {
        return 0;
      }
      if entry[up].sp != sp_ {
        return;
      }
      while true
        invariant 0 <= up < sp
        invariant MatchReturn(entry[..up+1], sp_, addr, n) == MatchReturn(entry[..sp], sp_, addr, 1)
        decreases up
      {
        if entry[up].ret == addr {
          return;
        }
        if up > 0 {
          assert entry[..up+1][..up] == entry[..up];
          up := up - 1;
          if entry[up].sp == sp_ {
            n := n + 1;
            continue;
          }
        }
        return 0;
      }
    }

    /** Unwind, and push a call if nothing was popped. */
    method UnwindThenPush(in': BlockEntry, sp_: nat, call: bool, emulated: bool)
      requires Valid()
      modifies this, entry
      ensures Valid() && View() == UnwindAndPush(old(View()), in', sp_, call, emulated)
      ensures lastDump == old(lastDump) && written == old(written)
    {
      ghost var b := View();
      var count := UnwindCallStack(sp_, 0);
      if count == 0 && call {
        var recorded := sp_;
        if emulated && sp > 0 {
          recorded := entry[sp-1].sp;
        }
        PushCallStack(in'.jcc, recorded, in'.ret);
      }
      UnwindAndPushSyncs(b, in', sp_, call, emulated);
    }

    /** The call-stack part of `setup_bbcc`. */
    method SetupBbcc(in': BlockEntry)
      requires Valid()
      modifies this, entry
      ensures Valid() && View() == Enter(old(View()), old(lastDump), in')
      ensures View().frames == FramesAfter(old(View()), in')
      ensures lastDump == old(lastDump) && written == old(written)
    {
      hide FramesAfter, Sound, UnwindAndPush, EnterReturn, Unwind, PopCount;
      ghost var fs := View().frames;
      var kind, popcount, retWithoutCall := in'.kind, 1, false;
      if kind == Return && sp > 0 {
        popcount := CountPops(in'.sp, in'.addr);
        if popcount == 0 {
          kind, retWithoutCall := Jump, true;
        }
      }
      assert kind == Matched(fs, in');
      if kind != Return && kind != Call && in'.hasLast && (retWithoutCall || in'.crossing) {
        assert Emulated(fs, in');
        if in'.popOnJump && sp > 0 && entry[sp-1].jcc.Some? {
          var topSp := entry[sp-1].sp;
          PopCallStack();
          UnwindThenPush(in', topSp, true, true);
        } else {
          UnwindThenPush(in', in'.sp, true, true);
        }
      } else if kind == Return {
        HandleReturn(in', popcount);
      } else {
        UnwindThenPush(in', in'.sp, kind == Call, false);
      }
      hide Enter, Descending, Matched, Emulated;
      EntryFrames(old(View()), old(lastDump), in');
    }

    method HandleReturn(in': BlockEntry, popcount: nat)
      requires Valid()
      requires sp > 0 ==> popcount == PopCount(entry[..sp], in'.sp, in'.addr)
      modifies this, entry
      ensures Valid() && View() == EnterReturn(old(View()), old(lastDump), in')
      ensures lastDump == old(lastDump) && written == old(written)
    {
      if sp == 0 || in'.atMarker {
        ghost var b := View();
        PushCallStack(Some(in'.underflowJcc), MAX_ADDR, 0);
        entry[sp-1] := entry[sp-1].(enter := lastDump);
        assert View() == Push(b, Frame(Some(in'.underflowJcc), lastDump, MAX_ADDR, 0));
        PopCallStack();
      } else {
        var count := UnwindCallStack(in'.sp, popcount);
      }
    }
  }
}
