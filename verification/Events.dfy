/** Callgrind's event sets: groups of named events, and cost arrays laid out as the groups
    selected by a bit mask, one after the other. */
module Events {
  import opened Options
  import opened Bits
  import CallCosts

  const MAX_GROUPS: nat := 10
  const MAX_SETS: nat := 1024

  datatype Group = Unregistered | Group(names: seq<string>)

  /** What a mask selects, as an event set. */
  datatype EventSet = EventSet(mask: nat, count: nat, size: nat, offset: seq<nat>)

  function Width(g: seq<Group>, mask: nat, i: nat): (n: nat)
    requires i < |g|
  {
    if Bit(mask, i) && g[i].Group? then |g[i].names| else 0
  }

  /** Start of group `i` in the cost array of a mask. */
  function Offset(g: seq<Group>, mask: nat, i: nat): (o: nat)
    requires i <= |g|
  {
    if i == 0 then 0 else Offset(g, mask, i - 1) + Width(g, mask, i - 1)
  }

  function Size(g: seq<Group>, mask: nat): (n: nat)
  {
    Offset(g, mask, |g|)
  }

  function Count(g: seq<Group>, mask: nat, i: nat): (n: nat)
    requires i <= |g|
  {
    if i == 0 then 0
    else Count(g, mask, i - 1) + if Bit(mask, i - 1) && g[i-1].Group? then 1 else 0
  }

  function Layout(g: seq<Group>, mask: nat): (es: EventSet)
  {
    EventSet(mask, Count(g, mask, |g|), Size(g, mask), seq(|g|, i requires 0 <= i < |g| => Offset(g, mask, i)))
  }

  /** Event `j` of group `i` is in the set. */
  predicate Has(g: seq<Group>, mask: nat, i: nat, j: nat)
  {
    i < |g| && j < Width(g, mask, i)
  }

  /** Its place in a cost array. */
  function Place(g: seq<Group>, mask: nat, i: nat, j: nat): (o: nat)
    requires Has(g, mask, i, j)
  {
    Offset(g, mask, i) + j
  }

  // ------------------------------------------------------------------ offsets tile the array

  lemma {:induction false} OffsetsGrow(g: seq<Group>, mask: nat, i: nat, k: nat)
    requires i < k <= |g|
    ensures Offset(g, mask, i) + Width(g, mask, i) <= Offset(g, mask, k)
    decreases k
  {
    if i < k - 1 { OffsetsGrow(g, mask, i, k - 1); }
  }

  lemma {:induction false} PlaceInArray(g: seq<Group>, mask: nat, i: nat, j: nat)
    requires Has(g, mask, i, j)
    ensures Place(g, mask, i, j) < Size(g, mask)
  {
    OffsetsGrow(g, mask, i, |g|);
  }

  /** No overlap: different events have different places. */
  lemma {:induction false} PlacesDiffer(g: seq<Group>, mask: nat, i: nat, j: nat, k: nat, l: nat)
    requires Has(g, mask, i, j) && Has(g, mask, k, l) && (i, j) != (k, l)
    ensures Place(g, mask, i, j) != Place(g, mask, k, l)
  {
    if i < k { OffsetsGrow(g, mask, i, k); }
    if k < i { OffsetsGrow(g, mask, k, i); }
  }

  /** Places follow the order of the groups, and of the events in a group. */
  lemma {:induction false} PlacesInOrder(g: seq<Group>, mask: nat, i: nat, j: nat, k: nat, l: nat)
    requires Has(g, mask, i, j) && Has(g, mask, k, l) && (i < k || (i == k && j < l))
    ensures Place(g, mask, i, j) < Place(g, mask, k, l)
  {
    if i < k { OffsetsGrow(g, mask, i, k); }
  }

  /** No gap: every place is that of an event. */
  lemma {:induction false} PlaceTaken(g: seq<Group>, mask: nat, o: nat, n: nat) returns (i: nat, j: nat)
    requires n <= |g| && o < Offset(g, mask, n)
    ensures Has(g, mask, i, j) && Place(g, mask, i, j) == o
    decreases n
  {
    if o < Offset(g, mask, n - 1) {
      i, j := PlaceTaken(g, mask, o, n - 1);
    } else {
      i, j := n - 1, o - Offset(g, mask, n - 1);
    }
  }

  lemma {:induction false} OffsetsAgree(g: seq<Group>, h: seq<Group>, mask: nat, n: nat)
    requires |g| == |h| && n <= |g| && forall i :: 0 <= i < n && Bit(mask, i) ==> g[i] == h[i]
    ensures Offset(g, mask, n) == Offset(h, mask, n) && Count(g, mask, n) == Count(h, mask, n)
  {
    if n > 0 { OffsetsAgree(g, h, mask, n - 1); }
  }

  lemma {:induction false} SizeGrows(g: seq<Group>, h: seq<Group>, mask: nat, id: nat, n: nat)
    requires id < n <= |g| == |h| && Bit(mask, id) && g[id].Unregistered? && h[id].Group? && |h[id].names| > 0
    requires forall i :: 0 <= i < |g| && i != id ==> g[i] == h[i]
    ensures Offset(h, mask, n) == Offset(g, mask, n) + |h[id].names|
    decreases n
  {
    if n - 1 == id {
      OffsetsAgree(g, h, mask, id);
    } else {
      SizeGrows(g, h, mask, id, n - 1);
    }
  }

  /** Registering a group keeps the layout of exactly those masks that do not select it. */
  lemma {:induction false} RegisterKeepsLayoutIff(g: seq<Group>, id: nat, names: seq<string>, mask: nat)
    requires id < |g| && g[id].Unregistered? && |names| > 0
    ensures Layout(g[id := Group(names)], mask) == Layout(g, mask) <==> !Bit(mask, id)
  {
    var h := g[id := Group(names)];
    if Bit(mask, id) {
      SizeGrows(g, h, mask, id, |g|);
    } else {
      forall i | 0 <= i <= |g| ensures Offset(g, mask, i) == Offset(h, mask, i) { OffsetsAgree(g, h, mask, i); }
      OffsetsAgree(g, h, mask, |g|);
      assert Layout(h, mask).offset == Layout(g, mask).offset;
    }
  }

  // ------------------------------------------------------------------ the table of event sets

  class EventSets {
    var groups: seq<Group>
    var table: map<nat, EventSet>

    /** Every event set made so far is the layout of its mask. */
    ghost predicate Valid()
      reads this
    {
      |groups| == MAX_GROUPS && forall m :: m in table ==> m < MAX_SETS && table[m] == Layout(groups, m)
    }

    constructor ()
      ensures Valid() && table == map[] && forall i :: 0 <= i < MAX_GROUPS ==> groups[i].Unregistered?
    {
      groups := seq(MAX_GROUPS, _ => Unregistered);
      table := map[];
    }

    /** Register a group.  Event sets already made stay right if and only if none of them
        selects it. */
    method Register(id: nat, names: seq<string>)
      requires Valid() && id < MAX_GROUPS && groups[id].Unregistered? && |names| > 0
      modifies this
      ensures groups == old(groups)[id := Group(names)] && table == old(table)
      ensures Valid() <==> forall m :: m in table ==> !Bit(m, id)
    {
      forall m | m in table
        ensures table[m] == Layout(groups[id := Group(names)], m) <==> !Bit(m, id)
      {
        RegisterKeepsLayoutIff(groups, id, names, m);
      }
      groups := groups[id := Group(names)];
    }

    /** The event set of a mask, made on first request. */
    method FromMask(mask: nat) returns (es: Option<EventSet>)
      requires Valid()
      modifies this
      ensures Valid() && groups == old(groups)
      ensures es == if mask < MAX_SETS then Some(Layout(groups, mask)) else None
      ensures table.Keys == old(table).Keys + if mask < MAX_SETS then {mask} else {}
    {
      if mask >= MAX_SETS {
        return None;
      }
      if mask in table {
        return Some(table[mask]);
      }
      var offsets, offset, count, i := [], 0, 0, 0;
      while i < MAX_GROUPS
        invariant 0 <= i <= MAX_GROUPS && |offsets| == i && groups == old(groups) && table == old(table)
        invariant offset == Offset(groups, mask, i) && count == Count(groups, mask, i)
        invariant forall k :: 0 <= k < i ==> offsets[k] == Offset(groups, mask, k)
      {
        offsets := offsets + [offset];
        if Bit(mask, i) && groups[i].Group? {
          offset := offset + |groups[i].names|;
          count := count + 1;
        }
        i := i + 1;
      }
      var made := EventSet(mask, count, offset, offsets);
      assert made == Layout(groups, mask);
      table := table[mask := made];
      return Some(made);
    }
  }

  // ------------------------------------------------------------------ moving costs

  /** An event's counter in a cost array; an event that is not in the set has none. */
  function Value(g: seq<Group>, mask: nat, cost: seq<nat>, i: nat, j: nat): (v: nat)
    requires |cost| == Size(g, mask)
  {
    if Has(g, mask, i, j) then PlaceInArray(g, mask, i, j); cost[Place(g, mask, i, j)] else 0
  }

  predicate Zero(c: seq<nat>)
  {
    forall o :: 0 <= o < |c| ==> c[o] == 0
  }

  /** Every event of `small` is in `big`. */
  predicate Covers(g: seq<Group>, big: nat, small: nat)
  {
    forall i :: 0 <= i < |g| && Bit(small, i) && g[i].Group? ==> Bit(big, i)
  }

  /** Move the counters of one group: `n` from `s` in the source to `d` in the destination. */
  method MoveGroup(dst: array<nat>, src: array<nat>, d: nat, s: nat, n: nat) returns (nonzero: bool)
    requires dst != src && d + n <= dst.Length && s + n <= src.Length
    modifies dst, src
    ensures forall o :: 0 <= o < dst.Length ==>
              dst[o] == old(dst[o]) + if d <= o < d + n then old(src[s+o-d]) else 0
    ensures forall o :: 0 <= o < src.Length ==> src[o] == if s <= o < s + n then 0 else old(src[o])
    ensures nonzero <==> exists o :: s <= o < s + n && old(src[o]) != 0
  {
    nonzero := false;
    var j := 0;
    while j < n
      invariant 0 <= j <= n
      invariant forall o :: 0 <= o < dst.Length ==>
                  dst[o] == old(dst[o]) + if d <= o < d + j then old(src[s+o-d]) else 0
      invariant forall o :: 0 <= o < src.Length ==> src[o] == if s <= o < s + j then 0 else old(src[o])
      invariant nonzero <==> exists o :: s <= o < s + j && old(src[o]) != 0
    {
      if src[s+j] != 0 {
        assert old(src[s+j]) != 0;
        dst[d+j] := dst[d+j] + src[s+j];
        src[s+j] := 0;
        nonzero := true;
      }
      j := j + 1;
    }
  }

  /** Groups below `n` have been moved. */
  ghost predicate MovedBelow(g: seq<Group>, dm: nat, sm: nat, n: nat,
                             d0: seq<nat>, s0: seq<nat>, d: seq<nat>, s: seq<nat>)
    requires |d0| == |d| == Size(g, dm) && |s0| == |s| == Size(g, sm)
  {
    (forall i: nat, j: nat :: Has(g, dm, i, j) ==>
       Value(g, dm, d, i, j) == Value(g, dm, d0, i, j) + if i < n then Value(g, sm, s0, i, j) else 0) &&
    (forall i: nat, j: nat :: Has(g, sm, i, j) ==>
       Value(g, sm, s, i, j) == if i < n then 0 else Value(g, sm, s0, i, j))
  }

  lemma {:induction false} SegmentIs(g: seq<Group>, mask: nat, i: nat, k: nat, l: nat)
    requires i < |g| && Has(g, mask, k, l)
    ensures var o := Place(g, mask, k, l);
            Offset(g, mask, i) <= o < Offset(g, mask, i) + Width(g, mask, i) <==> k == i
  {
    if i < k { OffsetsGrow(g, mask, i, k); }
    if k < i { OffsetsGrow(g, mask, k, i); }
  }

  /** A group that the source does not hold leaves everything as it is. */
  lemma {:induction false} SkipGroup(g: seq<Group>, dm: nat, sm: nat, n: nat,
                                     d0: seq<nat>, s0: seq<nat>, d: seq<nat>, s: seq<nat>)
    requires |d0| == |d| == Size(g, dm) && |s0| == |s| == Size(g, sm) && n < |g| && Width(g, sm, n) == 0
    requires MovedBelow(g, dm, sm, n, d0, s0, d, s)
    ensures MovedBelow(g, dm, sm, n + 1, d0, s0, d, s)
  {
  }

  lemma {:induction false} DstAfterGroup(g: seq<Group>, dm: nat, sm: nat, n: nat, s0: seq<nat>,
                                         d: seq<nat>, s: seq<nat>, d': seq<nat>, i: nat, j: nat)
    requires |d| == |d'| == Size(g, dm) && |s0| == |s| == Size(g, sm) && n < |g|
    requires Width(g, sm, n) == Width(g, dm, n) && Has(g, dm, i, j)
    requires Offset(g, sm, n) + Width(g, sm, n) <= |s|
    requires i == n ==> Value(g, sm, s, i, j) == Value(g, sm, s0, i, j)
    requires var a, b := Offset(g, dm, n), Offset(g, sm, n);
             forall o :: 0 <= o < |d| ==> d'[o] == d[o] + if a <= o < a + Width(g, dm, n) then s[b+o-a] else 0
    ensures Value(g, dm, d', i, j) == Value(g, dm, d, i, j) + if i == n then Value(g, sm, s0, i, j) else 0
  {
    SegmentIs(g, dm, n, i, j);
    PlaceInArray(g, dm, i, j);
  }

  lemma {:induction false} SrcAfterGroup(g: seq<Group>, sm: nat, n: nat, s: seq<nat>, s': seq<nat>, i: nat, j: nat)
    requires |s| == |s'| == Size(g, sm) && n < |g| && Has(g, sm, i, j)
    requires var b := Offset(g, sm, n);
             forall o :: 0 <= o < |s| ==> s'[o] == if b <= o < b + Width(g, sm, n) then 0 else s[o]
    ensures Value(g, sm, s', i, j) == if i == n then 0 else Value(g, sm, s, i, j)
  {
    SegmentIs(g, sm, n, i, j);
    PlaceInArray(g, sm, i, j);
  }

  lemma {:induction false} MoveOne(g: seq<Group>, dm: nat, sm: nat, n: nat, d0: seq<nat>, s0: seq<nat>,
                                   d: seq<nat>, s: seq<nat>, d': seq<nat>, s': seq<nat>)
    requires |d0| == |d| == |d'| == Size(g, dm) && |s0| == |s| == |s'| == Size(g, sm) && n < |g|
    requires Width(g, sm, n) == Width(g, dm, n) && Offset(g, sm, n) + Width(g, sm, n) <= |s|
    requires MovedBelow(g, dm, sm, n, d0, s0, d, s)
    requires var a, b := Offset(g, dm, n), Offset(g, sm, n);
             forall o :: 0 <= o < |d| ==> d'[o] == d[o] + if a <= o < a + Width(g, dm, n) then s[b+o-a] else 0
    requires var b := Offset(g, sm, n);
             forall o :: 0 <= o < |s| ==> s'[o] == if b <= o < b + Width(g, sm, n) then 0 else s[o]
    ensures MovedBelow(g, dm, sm, n + 1, d0, s0, d', s')
  {
    forall i: nat, j: nat | Has(g, dm, i, j)
      ensures Value(g, dm, d', i, j) == Value(g, dm, d0, i, j) + if i < n + 1 then Value(g, sm, s0, i, j) else 0
    {
      DstAfterGroup(g, dm, sm, n, s0, d, s, d', i, j);
    }
    forall i: nat, j: nat | Has(g, sm, i, j)
      ensures Value(g, sm, s', i, j) == if i < n + 1 then 0 else Value(g, sm, s0, i, j)
    {
      SrcAfterGroup(g, sm, n, s, s', i, j);
    }
  }

  lemma {:induction false} AllMoved(g: seq<Group>, dm: nat, sm: nat, d0: seq<nat>, s0: seq<nat>, d: seq<nat>, s: seq<nat>)
    requires |d0| == |d| == Size(g, dm) && |s0| == |s| == Size(g, sm)
    requires MovedBelow(g, dm, sm, |g|, d0, s0, d, s)
    ensures Zero(s)
    ensures forall i: nat, j: nat :: Has(g, dm, i, j) ==>
              Value(g, dm, d, i, j) == Value(g, dm, d0, i, j) + Value(g, sm, s0, i, j)
  {
    forall o | 0 <= o < |s| ensures s[o] == 0 {
      var i, j := PlaceTaken(g, sm, o, |g|);
      assert s[o] == Value(g, sm, s, i, j);
    }
    forall i: nat, j: nat | Has(g, dm, i, j)
      ensures Value(g, dm, d, i, j) == Value(g, dm, d0, i, j) + Value(g, sm, s0, i, j)
    {
      assert i < |g|;
    }
  }

  lemma {:induction false} SameWidth(g: seq<Group>, dm: nat, sm: nat, i: nat)
    requires Covers(g, dm, sm) && i < |g|
    ensures Bit(sm, i) && g[i].Group? ==> Width(g, dm, i) == Width(g, sm, i)
    ensures Offset(g, sm, i) + Width(g, sm, i) <= Size(g, sm)
    ensures Offset(g, dm, i) + Width(g, dm, i) <= Size(g, dm)
  {
    OffsetsGrow(g, sm, i, |g|);
    OffsetsGrow(g, dm, i, |g|);
  }

  lemma {:induction false} NonzeroStep(s0: seq<nat>, lo: nat, hi: nat, before: bool, here: bool)
    requires lo <= hi <= |s0|
    requires before <==> !Zero(s0[..lo])
    requires here <==> exists o :: lo <= o < hi && s0[o] != 0
    ensures before || here <==> !Zero(s0[..hi])
  {
    if before {
      var o :| 0 <= o < lo && s0[..lo][o] != 0;
      assert s0[..hi][o] != 0;
    }
    if here {
      var o :| lo <= o < hi && s0[o] != 0;
      assert s0[..hi][o] != 0;
    }
    if !Zero(s0[..hi]) {
      var o :| 0 <= o < hi && s0[..hi][o] != 0;
      assert o < lo ==> s0[..lo][o] != 0;
    }
  }

  /** Add the costs of `src` to `dst`, event by event, and clear `src`.  Every event of the
      source must be in the destination, which may have more. */
  method AddAndZeroCost2(g: seq<Group>, esDst: EventSet, dst: array<nat>, esSrc: EventSet, src: array?<nat>)
    returns (nonzero: bool)
    requires esDst == Layout(g, esDst.mask) && esSrc == Layout(g, esSrc.mask)
    requires dst.Length == esDst.size && Covers(g, esDst.mask, esSrc.mask)
    requires src != null ==> src != dst && src.Length == esSrc.size
    modifies dst, src
    ensures src == null ==> !nonzero && dst[..] == old(dst[..])
    ensures src != null ==> (nonzero <==> !Zero(old(src[..]))) && Zero(src[..])
    ensures src != null ==> forall i: nat, j: nat :: Has(g, esDst.mask, i, j) ==>
              Value(g, esDst.mask, dst[..], i, j)
              == Value(g, esDst.mask, old(dst[..]), i, j) + Value(g, esSrc.mask, old(src[..]), i, j)
  {
    hide Covers, Value, Bit;
    if src == null {
      return false;
    }
    var dm, sm := esDst.mask, esSrc.mask;
    ghost var d0, s0 := dst[..], src[..];
    nonzero := false;
    var i := 0;
    while i < |g|
      invariant 0 <= i <= |g| && MovedBelow(g, dm, sm, i, d0, s0, dst[..], src[..])
      invariant Offset(g, sm, i) <= |s0| && (nonzero <==> !Zero(s0[..Offset(g, sm, i)]))
      invariant forall o :: Offset(g, sm, i) <= o < |s0| ==> src[o] == s0[o]
    {
      SameWidth(g, dm, sm, i);
      if Bit(sm, i) && g[i].Group? {
        ghost var d, s := dst[..], src[..];
        var here := MoveGroup(dst, src, esDst.offset[i], esSrc.offset[i], |g[i].names|);
        MoveOne(g, dm, sm, i, d0, s0, d, s, dst[..], src[..]);
        NonzeroStep(s0, Offset(g, sm, i), Offset(g, sm, i + 1), nonzero, here);
        nonzero := nonzero || here;
      } else {
        SkipGroup(g, dm, sm, i, d0, s0, dst[..], src[..]);
      }
      i := i + 1;
    }
    AllMoved(g, dm, sm, d0, s0, dst[..], src[..]);
    assert s0[..|s0|] == s0;
  }

  /** Add what was gathered since `before` to `dst`, and bring `before` up to date. */
  method AddDiffCost(dst: array<nat>, before: array<nat>, now: array<nat>) returns (nonzero: bool)
    requires dst.Length == before.Length == now.Length
    requires dst != before && dst != now && before != now && CallCosts.AtLeast(now[..], before[..])
    modifies dst, before
    ensures dst[..] == CallCosts.Plus(old(dst[..]), CallCosts.Minus(now[..], old(before[..])))
    ensures before[..] == now[..] && (nonzero <==> now[..] != old(before[..]))
  {
    nonzero := false;
    ghost var b0, n0 := before[..], now[..];
    var i := 0;
    while i < dst.Length
      invariant 0 <= i <= dst.Length && now[..] == n0
      invariant forall k :: 0 <= k < dst.Length ==> before[k] == if k < i then n0[k] else b0[k]
      invariant forall k :: 0 <= k < dst.Length ==> dst[k] == old(dst[k]) + if k < i then n0[k] - b0[k] else 0
      invariant nonzero <==> n0[..i] != b0[..i]
    {
      assert n0[..i+1] == n0[..i] + [n0[i]] && b0[..i+1] == b0[..i] + [b0[i]];
      if now[i] != before[i] {
        dst[i] := dst[i] + (now[i] - before[i]);
        before[i] := now[i];
        nonzero := true;
      }
      i := i + 1;
    }
    assert n0[..i] == n0 && b0[..i] == b0;
  }

  // ------------------------------------------------------------------ event mappings

  datatype Entry = Entry(group: nat, index: nat, offset: nat)

  /** Events before event `j` of group `i` in the order of the set. */
  predicate Before(k: nat, l: nat, i: nat, j: nat)
  {
    k < i || (k == i && l < j)
  }

  predicate Named(g: seq<Group>, mask: nat, i: nat, j: nat, name: string)
  {
    Has(g, mask, i, j) && g[i].names[j] == name
  }

  class EventMapping {
    const groups: seq<Group>
    const mask: nat
    const capacity: nat
    var entries: seq<Entry>

    /** Each entry is the place of its event. */
    ghost predicate Valid()
      reads this
    {
      forall e :: e in entries ==>
        Has(groups, mask, e.group, e.index) && e.offset == Place(groups, mask, e.group, e.index)
    }

    constructor (groups: seq<Group>, mask: nat)
      ensures Valid() && entries == [] && capacity == Size(groups, mask)
      ensures this.groups == groups && this.mask == mask
    {
      this.groups, this.mask, capacity, entries := groups, mask, Size(groups, mask), [];
    }

    /** Append the first event of that name; there is nothing to do if there is none.  The
        mapping must have room for it. */
    method AppendEvent(name: string)
      requires Valid()
      requires |entries| < capacity || forall i: nat, j: nat :: !Named(groups, mask, i, j, name)
      modifies this
      ensures Valid()
      ensures (entries == old(entries) && forall i: nat, j: nat :: !Named(groups, mask, i, j, name)) ||
              exists e :: entries == old(entries) + [e] && Named(groups, mask, e.group, e.index, name) &&
                forall k: nat, l: nat :: Before(k, l, e.group, e.index) ==> !Named(groups, mask, k, l, name)
    {
      var i, offset := 0, 0;
      while i < |groups|
        invariant 0 <= i <= |groups| && offset == Offset(groups, mask, i) && entries == old(entries)
        invariant forall k: nat, l: nat :: k < i ==> !Named(groups, mask, k, l, name)
      {
        if Bit(mask, i) && groups[i].Group? {
          var j := 0;
          while j < |groups[i].names|
            invariant 0 <= j <= |groups[i].names| && offset == Offset(groups, mask, i) + j && entries == old(entries)
            invariant forall k: nat, l: nat :: Before(k, l, i, j) ==> !Named(groups, mask, k, l, name)
          {
            if groups[i].names[j] == name {
              var e := Entry(i, j, offset);
              assert Named(groups, mask, e.group, e.index, name);
              entries := entries + [e];
              return;
            }
            j, offset := j + 1, offset + 1;
          }
        }
        i := i + 1;
      }
    }
  }
}
