/** Callgrind's tables of call arcs (jCCs) and of basic blocks, on top of the chained hash
    table. */
module CallArcs {
  import opened Arith
  import opened ChainedHash

  // ------------------------------------------------------------------ call arcs

  /** A call arc: calling block, exit of it, called block (blocks by address). */
  datatype ArcKey = ArcKey(from: nat, jmp: nat, to: nat)

  const N_JCC_INITIAL_ENTRIES: nat := 4437

  /** The hash before reduction modulo the table size, truncated to 32 bits. */
  function ArcHash(k: ArcKey): (h: nat)
  {
    (k.from + 7 * k.to + 13 * k.jmp) % 0x1_0000_0000
  }

  datatype Exit = Exit(from: nat, jmp: nat)

  type Jcc = Node<ArcKey>

  /** `n` is the node the table holds for its key. */
  ghost predicate Known(index: map<ArcKey, Jcc>, n: Jcc)
  {
    n.key in index && index[n.key] == n
  }

  function ListOf(lists: map<Exit, seq<Jcc>>, e: Exit): (s: seq<Jcc>)
  {
    if e in lists then lists[e] else []
  }

  /** The list of each exit holds exactly that exit's arcs, each once. */
  ghost predicate ListsRight(lists: map<Exit, seq<Jcc>>, index: map<ArcKey, Jcc>)
  {
    (forall e :: e in lists ==> Distinct(lists[e])) &&
    (forall e, n :: e in lists && n in lists[e] ==> Known(index, n) && Exit(n.key.from, n.key.jmp) == e) &&
    (forall k :: k in index ==> index[k] in ListOf(lists, Exit(k.from, k.jmp)))
  }

  /** The last arc used from, and to, a block is one of that block's arcs. */
  ghost predicate ShortcutsRight(lruFrom: map<nat, Jcc>, lruTo: map<nat, Jcc>, index: map<ArcKey, Jcc>)
  {
    (forall b :: b in lruFrom ==> Known(index, lruFrom[b]) && lruFrom[b].key.from == b) &&
    (forall b :: b in lruTo ==> Known(index, lruTo[b]) && lruTo[b].key.to == b)
  }

  lemma {:induction false} ShortcutsGrow(lruFrom: map<nat, Jcc>, lruTo: map<nat, Jcc>, index: map<ArcKey, Jcc>, k: ArcKey, n: Jcc)
    requires ShortcutsRight(lruFrom, lruTo, index) && k !in index
    ensures ShortcutsRight(lruFrom, lruTo, index[k := n]) && |index[k := n]| == |index| + 1
  {
  }

  lemma {:induction false} ListsOneMore(lists: map<Exit, seq<Jcc>>, index: map<ArcKey, Jcc>, n: Jcc)
    requires ListsRight(lists, index) && n.key !in index && KeysOk(index)
    ensures var e := Exit(n.key.from, n.key.jmp);
            ListsRight(lists[e := [n] + ListOf(lists, e)], index[n.key := n])
  {
    var e := Exit(n.key.from, n.key.jmp);
    var longer, index' := lists[e := [n] + ListOf(lists, e)], index[n.key := n];
    assert n !in ListOf(lists, e);
    assert Distinct([n] + ListOf(lists, e));
    forall x, m | x in longer && m in longer[x] ensures Known(index', m) && Exit(m.key.from, m.key.jmp) == x {
      if m != n {
        assert m in ListOf(lists, x);
      }
    }
    forall k | k in index' ensures index'[k] in ListOf(longer, Exit(k.from, k.jmp)) {
      if k == n.key {
        assert longer[e][0] == n;
      } else {
        assert index[k] in ListOf(lists, Exit(k.from, k.jmp));
      }
    }
  }

  /** The lists with a new jCC at the head of that of its exit. */
  function Headed(lists: map<Exit, seq<Jcc>>, n: Jcc): (r: map<Exit, seq<Jcc>>)
  {
    var e := Exit(n.key.from, n.key.jmp);
    lists[e := [n] + ListOf(lists, e)]
  }

  lemma {:induction false} RememberedRight(lruFrom: map<nat, Jcc>, lruTo: map<nat, Jcc>, index: map<ArcKey, Jcc>, n: Jcc)
    requires ShortcutsRight(lruFrom, lruTo, index) && Known(index, n)
    ensures ShortcutsRight(lruFrom[n.key.from := n], lruTo[n.key.to := n], index)
  {
  }

  class ArcTable {
    const hash: Table<ArcKey>
    var lruFrom: map<nat, Jcc>
    var lruTo: map<nat, Jcc>
    var lists: map<Exit, seq<Jcc>>

    ghost predicate Valid()
      reads this, hash, hash.buckets, hash.index.Values
    {
      hash.Valid() && hash.entries == |hash.index| &&
      ShortcutsRight(lruFrom, lruTo, hash.index) && ListsRight(lists, hash.index)
    }

    constructor ()
      ensures Valid() && hash.index == map[] && fresh(hash) && fresh(hash.buckets)
    {
      hash := new Table(N_JCC_INITIAL_ENTRIES, ArcHash);
      lruFrom, lruTo, lists := map[], map[], map[];
    }

    /** Put a new jCC at the head of the list of its exit. */
    method AddToList(n: Jcc, ghost before: map<ArcKey, Jcc>)
      requires n.key !in before && KeysOk(before) && ListsRight(lists, before)
      modifies this`lists
      ensures ListsRight(lists, before[n.key := n]) && lists == Headed(old(lists), n)
    {
      ListsOneMore(lists, before, n);
      var e := Exit(n.key.from, n.key.jmp);
      lists := lists[e := [n] + ListOf(lists, e)];
    }

    /** Make the jCC of a new arc. */
    method NewJcc(k: ArcKey) returns (n: Jcc)
      requires Valid() && k !in hash.index
      modifies this`lists, hash, hash.buckets, hash.index.Values
      ensures Valid() && fresh(n) && n.key == k && hash.index == old(hash.index)[k := n] && lists == Headed(old(lists), n)
      ensures hash.buckets == old(hash.buckets) || fresh(hash.buckets)
    {
      ghost var before := hash.index;
      n := InsertArc(k);
      AddToList(n, before);
    }

    /** The table's part of making a jCC. */
    method InsertArc(k: ArcKey) returns (n: Jcc)
      requires hash.Valid() && hash.entries == |hash.index| && k !in hash.index
      requires ShortcutsRight(lruFrom, lruTo, hash.index)
      modifies hash, hash.buckets, hash.index.Values
      ensures hash.Valid() && hash.entries == |hash.index| && ShortcutsRight(lruFrom, lruTo, hash.index)
      ensures fresh(n) && n.key == k && hash.index == old(hash.index)[k := n]
      ensures hash.buckets == old(hash.buckets) || fresh(hash.buckets)
    {
      ghost var before := hash.index;
      n := hash.Insert(k);
      assert hash.index[k] == n;
      ShortcutsGrow(lruFrom, lruTo, before, k, n);
    }

    /** Remember a cost centre in both shortcuts. */
    method Remember(n: Jcc)
      requires Valid() && Known(hash.index, n)
      modifies this`lruFrom, this`lruTo
      ensures Valid() && lruFrom == old(lruFrom)[n.key.from := n] && lruTo == old(lruTo)[n.key.to := n]
    {
      hide ShortcutsRight, ListsRight, Known;
      RememberedRight(lruFrom, lruTo, hash.index, n);
      lruFrom := lruFrom[n.key.from := n];
      lruTo := lruTo[n.key.to := n];
      assert hash.Valid() == old(hash.Valid());
    }

    /** Search the table, and make the jCC if it is not there. */
    method FindOrMake(k: ArcKey) returns (n: Jcc)
      requires Valid()
      modifies this`lists, hash, hash.buckets, hash.index.Values
      ensures Valid() && n.key == k && Known(hash.index, n)
      ensures hash.index == if k in old(hash.index) then old(hash.index) else old(hash.index)[k := n]
      ensures lists == if k in old(hash.index) then old(lists) else Headed(old(lists), n)
      ensures k !in old(hash.index) ==> fresh(n)
      ensures hash.buckets == old(hash.buckets) || fresh(hash.buckets)
    {
      var found := hash.Lookup(k);
      if found == null {
        n := NewJcc(k);
        assert hash.index[k] == n;
      } else {
        n := found;
      }
    }

    /** Is the arc the last one used to its callee or from its caller? */
    predicate Shortcut(k: ArcKey)
      reads this
    {
      (k.to in lruTo && lruTo[k.to].key == k) || (k.from in lruFrom && lruFrom[k.from].key == k)
    }

    /** Try the last arcs used to the callee and from the caller. */
    method TryShortcuts(k: ArcKey) returns (n: Node?<ArcKey>)
      requires ShortcutsRight(lruFrom, lruTo, hash.index)
      ensures n != null ==> n.key == k && Known(hash.index, n)
      ensures n != null <==> Shortcut(k)
    {
      if k.to in lruTo && lruTo[k.to].key.from == k.from && lruTo[k.to].key.jmp == k.jmp {
        return lruTo[k.to];
      }
      if k.from in lruFrom && lruFrom[k.from].key.to == k.to && lruFrom[k.from].key.jmp == k.jmp {
        return lruFrom[k.from];
      }
      return null;
    }

    /** Search or make, and remember the result. */
    method FindAndRemember(k: ArcKey) returns (n: Jcc)
      requires Valid()
      modifies this, hash, hash.buckets, hash.index.Values
      ensures Valid() && n.key == k && Known(hash.index, n)
      ensures hash.index == if k in old(hash.index) then old(hash.index) else old(hash.index)[k := n]
      ensures lists == if k in old(hash.index) then old(lists) else Headed(old(lists), n)
      ensures k !in old(hash.index) ==> fresh(n)
      ensures hash.buckets == old(hash.buckets) || fresh(hash.buckets)
      ensures lruFrom == old(lruFrom)[k.from := n] && lruTo == old(lruTo)[k.to := n]
    {
      hide *;
      n := FindOrMake(k);
      Remember(n);
    }

    /** The jCC of an arc: one per arc, made when first asked for and the same ever after.
        The last arcs used from the caller and to the callee are tried before the table. */
    method GetJcc(k: ArcKey) returns (n: Jcc)
      requires Valid()
      modifies this, hash, hash.buckets, hash.index.Values
      ensures Valid() && n.key == k && Known(hash.index, n)
      ensures hash.index == if k in old(hash.index) then old(hash.index) else old(hash.index)[k := n]
      ensures lists == if k in old(hash.index) then old(lists) else Headed(old(lists), n)
      ensures k !in old(hash.index) ==> fresh(n)
      ensures hash.buckets == old(hash.buckets) || fresh(hash.buckets)
      ensures if old(Shortcut(k)) then lruFrom == old(lruFrom) && lruTo == old(lruTo)
              else lruFrom == old(lruFrom)[k.from := n] && lruTo == old(lruTo)[k.to := n]
    {
      var short := TryShortcuts(k);
      if short != null {
        return short;
      }
      n := FindAndRemember(k);
    }
  }

  // ------------------------------------------------------------------ basic blocks

  /** A basic block: its object and its offset in there. */
  datatype BlockKey = BlockKey(obj: nat, offset: nat)

  const N_BB_INITIAL_ENTRIES: nat := 8437

  function BlockHash(k: BlockKey): (h: nat)
  {
    (k.obj + k.offset) % 0x1_0000_0000_0000_0000
  }

  /** The table of basic blocks.  Its entry count is not lowered when a block is deleted, so
      it is an upper bound of the number of blocks. */
  class BlockTable {
    const hash: Table<BlockKey>

    ghost predicate Valid()
      reads this, hash, hash.buckets, hash.index.Values
    {
      hash.Valid() && |hash.index| <= hash.entries
    }

    constructor ()
      ensures Valid() && hash.index == map[] && fresh(hash) && fresh(hash.buckets)
    {
      hash := new Table(N_BB_INITIAL_ENTRIES, BlockHash);
    }

    /** The block at an object and offset, made if it was not seen before. */
    method GetBb(k: BlockKey) returns (bb: Node<BlockKey>, seenBefore: bool)
      requires Valid()
      modifies hash, hash.buckets, hash.index.Values
      ensures Valid() && seenBefore == (k in old(hash.index)) && (!seenBefore ==> fresh(bb))
      ensures bb.key == k && hash.index == if seenBefore then old(hash.index) else old(hash.index)[k := bb]
      ensures seenBefore ==> bb == old(hash.index)[k]
      ensures hash.buckets == old(hash.buckets) || fresh(hash.buckets)
    {
      hide Distinct, Linked, AllLinked;
      var found := hash.Lookup(k);
      seenBefore := found != null;
      if found == null {
        bb := hash.Insert(k);
        assert hash.index[k] == bb;
      } else {
        bb := found;
      }
    }

    /** Unlink the block at an object and offset; nothing happens if there is none. */
    method DeleteBb(k: BlockKey)
      requires Valid()
      modifies hash`chains, hash`index, hash.buckets, hash.index.Values
      ensures Valid() && hash.index == old(hash.index) - {k}
    {
      var gone := hash.Delete(k);
      assert hash.index.Keys == old(hash.index).Keys - {k};
      assert |hash.index| <= |old(hash.index)|;
    }
  }
}
