/** The chained hash table Callgrind uses for call arcs and for basic blocks: buckets of
    singly linked nodes, doubled in place when more than 80% full.  The table refines a map
    from keys to nodes. */
module ChainedHash {
  import opened Arith

  class Node<K> {
    const key: K
    var next: Node?<K>

    constructor (key: K)
      ensures this.key == key && next == null
    {
      this.key := key;
      next := null;
    }
  }

  /** Following `next` from `p` visits exactly the nodes of `c`, in order. */
  ghost predicate Linked<K>(p: Node?<K>, c: seq<Node<K>>)
    reads c
  {
    if c == [] then p == null else p == c[0] && Linked(c[0].next, c[1..])
  }

  /** Every bucket of `t` is linked as `chains` says, through nodes of `nodes`. */
  ghost predicate AllLinked<K>(t: array<Node?<K>>, chains: seq<seq<Node<K>>>, nodes: set<Node<K>>)
    reads t, nodes
  {
    |chains| == t.Length &&
    forall i :: 0 <= i < |chains| ==> (forall n :: n in chains[i] ==> n in nodes) && Linked(t[i], chains[i])
  }

  /** Put a node at the head of bucket `b`. */
  method LinkIn<K>(t: array<Node?<K>>, ghost chains: seq<seq<Node<K>>>, ghost nodes: set<Node<K>>, b: nat, n: Node<K>)
    requires AllLinked(t, chains, nodes) && b < t.Length && n !in nodes
    modifies t, n`next
    ensures AllLinked(t, chains[b := [n] + chains[b]], nodes + {n})
  {
    ghost var head := t[b];
    n.next := t[b];
    t[b] := n;
    ghost var after := chains[b := [n] + chains[b]];
    forall i | 0 <= i < |after|
      ensures (forall m :: m in after[i] ==> m in nodes + {n}) && Linked(t[i], after[i])
    {
      if i == b {
        assert Linked(head, chains[b]);
        assert after[b][1..] == chains[b];
      }
    }
  }

  // ------------------------------------------------------------------ rehashing in place

  /** The chains hold exactly the nodes of `moved`, each once, in the bucket of its key. */
  ghost predicate Holds<K>(chains: seq<seq<Node<K>>>, moved: set<Node<K>>, raw: K -> nat)
  {
    |chains| > 0 &&
    (forall b, n :: 0 <= b < |chains| && n in chains[b] ==> n in moved && raw(n.key) % |chains| == b) &&
    (forall n :: n in moved ==> n in chains[raw(n.key) % |chains|]) &&
    (forall b :: 0 <= b < |chains| ==> Distinct(chains[b]))
  }

  lemma {:induction false} HoldsOneMore<K>(chains: seq<seq<Node<K>>>, moved: set<Node<K>>, raw: K -> nat, n: Node<K>)
    requires Holds(chains, moved, raw) && n !in moved
    ensures var b := raw(n.key) % |chains|;
            Holds(chains[b := [n] + chains[b]], moved + {n}, raw)
  {
    var b := raw(n.key) % |chains|;
    var after := chains[b := [n] + chains[b]];
    assert Distinct([n] + chains[b]) by {
      assert n !in chains[b];
    }
    forall m | m in moved + {n} ensures m in after[raw(m.key) % |after|] {
      if m == n { assert after[b][0] == n; }
    }
  }

  ghost function Elems<T>(s: seq<T>): set<T>
  {
    set x | x in s
  }

  /** Move the nodes of one old bucket, linked from `p` as `c`, into the new table. */
  method MoveChain<K>(t: array<Node?<K>>, ghost chains: seq<seq<Node<K>>>, ghost moved: set<Node<K>>,
                      p: Node?<K>, ghost c: seq<Node<K>>, raw: K -> nat)
    returns (ghost chains': seq<seq<Node<K>>>)
    requires AllLinked(t, chains, moved) && Holds(chains, moved, raw)
    requires Linked(p, c) && Distinct(c) && forall n :: n in c ==> n !in moved
    modifies t, Elems(c)
    ensures AllLinked(t, chains', moved + Elems(c)) && Holds(chains', moved + Elems(c), raw)
  {
    var curr := p;
    ghost var rest := c;
    ghost var done: set<Node<K>> := {};
    chains' := chains;
    while curr != null
      invariant Linked(curr, rest) && Distinct(rest)
      invariant AllLinked(t, chains', moved + done) && Holds(chains', moved + done, raw)
      invariant forall n :: n in rest ==> n in c && n !in moved + done
      invariant Elems(c) == done + Elems(rest)
      decreases |rest|
    {
      var next := curr.next;
      var b := raw(curr.key) % t.Length;
      HoldsOneMore(chains', moved + done, raw, curr);
      ghost var tail := rest[1..];
      assert rest == [curr] + tail && curr !in tail;
      LinkIn(t, chains', moved + done, b, curr);
      chains' := chains'[b := [curr] + chains'[b]];
      done := done + {curr};
      assert moved + done == moved + (done - {curr}) + {curr};
      rest := tail;
      curr := next;
    }
  }

  /** Nodes of the first `i` old buckets. */
  ghost function Before<K>(chains: seq<seq<Node<K>>>, i: nat): (s: set<Node<K>>)
    requires i <= |chains|
    ensures forall n :: n in s ==> exists b :: 0 <= b < i && n in chains[b]
    ensures forall b, n :: 0 <= b < i && n in chains[b] ==> n in s
  {
    if i == 0 then {} else Before(chains, i - 1) + Elems(chains[i-1])
  }

  /** A bucket shares no node with the ones before it, nor with those after it. */
  lemma BucketsApart<K>(chains: seq<seq<Node<K>>>, nodes: set<Node<K>>, raw: K -> nat, i: nat)
    requires Holds(chains, nodes, raw) && i < |chains|
    ensures forall n :: n in chains[i] ==> n in nodes && n !in Before(chains, i)
    ensures forall k, n :: i < k < |chains| && n in chains[k] ==> n !in chains[i]
  {
  }

  lemma {:induction false} BeforeAll<K>(chains: seq<seq<Node<K>>>, nodes: set<Node<K>>, raw: K -> nat)
    requires Holds(chains, nodes, raw)
    ensures Before(chains, |chains|) == nodes
  {
    forall n | n in nodes ensures n in Before(chains, |chains|) {
      assert n in chains[raw(n.key) % |chains|];
    }
  }

  /** The buckets from `i` on are still linked as they were. */
  ghost predicate LinkedFrom<K>(t: array<Node?<K>>, chains: seq<seq<Node<K>>>, nodes: set<Node<K>>, i: nat)
    reads t, nodes
  {
    |chains| == t.Length &&
    forall k :: i <= k < |chains| ==> (forall n :: n in chains[k] ==> n in nodes) && Linked(t[k], chains[k])
  }

  /** Move old bucket `i` into the new table. */
  method MoveBucket<K(!new)>(t: array<Node?<K>>, ghost chains: seq<seq<Node<K>>>, ghost nodes: set<Node<K>>,
                             raw: K -> nat, i: nat, t': array<Node?<K>>, ghost c: seq<seq<Node<K>>>)
    returns (ghost chains': seq<seq<Node<K>>>)
    requires Holds(chains, nodes, raw) && i < |chains| && LinkedFrom(t, chains, nodes, i) && t' != t
    requires AllLinked(t', c, Before(chains, i)) && Holds(c, Before(chains, i), raw)
    modifies t', nodes
    ensures LinkedFrom(t, chains, nodes, i + 1)
    ensures AllLinked(t', chains', Before(chains, i + 1)) && Holds(chains', Before(chains, i + 1), raw)
  {
    BucketsApart(chains, nodes, raw, i);
    ghost var moving := Elems(chains[i]);
    label before:
    chains' := MoveChain(t', c, Before(chains, i), t[i], chains[i], raw);
    forall k | i < k < |chains| ensures Linked(t[k], chains[k]) {
      assert forall n :: n in chains[k] ==> n !in moving;
      assert old@before(Linked(t[k], chains[k]));
    }
  }

  /** Build a table of `size` buckets from the nodes of the old one. */
  method Rehash<K(!new)>(t: array<Node?<K>>, ghost chains: seq<seq<Node<K>>>, ghost nodes: set<Node<K>>, raw: K -> nat,
                         size: nat)
    returns (t': array<Node?<K>>, ghost chains': seq<seq<Node<K>>>)
    requires AllLinked(t, chains, nodes) && Holds(chains, nodes, raw) && size > 0
    modifies nodes
    ensures fresh(t') && t'.Length == size
    ensures AllLinked(t', chains', nodes) && Holds(chains', nodes, raw)
  {
    t' := new Node?<K>[size](_ => null);
    chains' := seq(size, _ => []);
    var i := 0;
    while i < t.Length
      invariant 0 <= i <= t.Length && fresh(t') && t'.Length == size
      invariant AllLinked(t', chains', Before(chains, i)) && Holds(chains', Before(chains, i), raw)
      invariant LinkedFrom(t, chains, nodes, i)
    {
      chains' := MoveBucket(t, chains, nodes, raw, i, t', chains');
      i := i + 1;
    }
    BeforeAll(chains, nodes, raw);
  }

  // ------------------------------------------------------------------ walking and unlinking

  /** Following `next` from `p` visits the nodes of `c` and then stands at `q`. */
  ghost predicate LeadsTo<K>(p: Node?<K>, c: seq<Node<K>>, q: Node?<K>)
    reads c
  {
    if c == [] then p == q else p == c[0] && LeadsTo(c[0].next, c[1..], q)
  }

  lemma {:induction false} LinkedSplit<K>(p: Node?<K>, c: seq<Node<K>>, q: Node?<K>, d: seq<Node<K>>)
    requires LeadsTo(p, c, q)
    ensures Linked(p, c + d) <==> Linked(q, d)
    decreases |c|
  {
    if c == [] {
      assert c + d == d;
    } else {
      assert (c + d)[0] == c[0] && (c + d)[1..] == c[1..] + d;
      LinkedSplit(c[0].next, c[1..], q, d);
    }
  }

  lemma {:induction false} LeadsOneOn<K>(p: Node?<K>, c: seq<Node<K>>, q: Node<K>)
    requires LeadsTo(p, c, q)
    ensures LeadsTo(p, c + [q], q.next)
    decreases |c|
  {
    if c == [] {
      assert c + [q] == [q] && [q][1..] == [];
    } else {
      assert (c + [q])[0] == c[0] && (c + [q])[1..] == c[1..] + [q];
      LeadsOneOn(c[0].next, c[1..], q);
    }
  }

  /** Walk a chain until a node with key `k`; `prev` is the node before it. */
  method Walk<K(==)>(p: Node?<K>, ghost c: seq<Node<K>>, k: K)
    returns (prev: Node?<K>, n: Node?<K>, ghost done: seq<Node<K>>, ghost rest: seq<Node<K>>)
    requires Linked(p, c)
    ensures c == done + rest && LeadsTo(p, done, n) && Linked(n, rest)
    ensures forall m :: m in done ==> m.key != k
    ensures n != null ==> n.key == k
    ensures prev == if done == [] then null else done[|done|-1]
    ensures done != [] ==> LeadsTo(p, done[..|done|-1], prev)
  {
    prev, n, done, rest := null, p, [], c;
    while n != null && n.key != k
      invariant c == done + rest && Linked(n, rest) && LeadsTo(p, done, n)
      invariant forall m :: m in done ==> m.key != k
      invariant prev == if done == [] then null else done[|done|-1]
      invariant done != [] ==> LeadsTo(p, done[..|done|-1], prev)
      decreases |rest|
    {
      LeadsOneOn(p, done, n);
      assert done + rest == (done + [n]) + rest[1..];
      assert (done + [n])[..|done|] == done;
      prev, n, done, rest := n, n.next, done + [n], rest[1..];
    }
  }

  /** The table as the map it refines. */
  ghost predicate KeysOk<K>(index: map<K, Node<K>>)
  {
    forall k :: k in index ==> index[k].key == k
  }

  class Table<K(==,!new)> {
    const raw: K -> nat
    var buckets: array<Node?<K>>
    var entries: nat
    ghost var chains: seq<seq<Node<K>>>
    ghost var index: map<K, Node<K>>

    /** Links and buckets are as they should be, and the table is at most 80% full. */
    ghost predicate Valid()
      reads this, buckets, index.Values
    {
      Filed() && Roomy(entries, buckets.Length)
    }

    ghost predicate Filed()
      reads this, buckets, index.Values
    {
      AllLinked(buckets, chains, index.Values) && Holds(chains, index.Values, raw) && KeysOk(index)
    }

    constructor (size: nat, raw: K -> nat)
      requires size > 0
      ensures Valid() && index == map[] && entries == 0 && fresh(buckets) && buckets.Length == size
      ensures this.raw == raw
    {
      this.raw := raw;
      buckets := new Node?<K>[size](_ => null);
      entries := 0;
      chains := seq(size, _ => []);
      index := map[];
    }

    /** What a walk of its bucket says about a key. */
    lemma {:induction false} WalkDecides(k: K, n: Node?<K>, done: seq<Node<K>>, rest: seq<Node<K>>)
      requires Valid() && chains[raw(k) % |chains|] == done + rest && Linked(n, rest)
      requires (forall m :: m in done ==> m.key != k) && (n != null ==> n.key == k)
      ensures n == if k in index then index[k] else null
    {
      if n == null {
        assert rest == [] && done + rest == done;
      } else {
        assert n in done + rest by { assert rest[0] == n; }
        assert n in index.Values;
      }
    }

    /** Walk the bucket of a key. */
    method Locate(k: K) returns (prev: Node?<K>, n: Node?<K>, ghost done: seq<Node<K>>, ghost rest: seq<Node<K>>)
      requires Valid()
      ensures n == if k in index then index[k] else null
      ensures var b := raw(k) % buckets.Length;
              chains[b] == done + rest && LeadsTo(buckets[b], done, n) && Linked(n, rest) &&
              (prev == if done == [] then null else done[|done|-1]) &&
              (done != [] ==> LeadsTo(buckets[b], done[..|done|-1], prev))
      ensures Elems(done) <= index.Values
    {
      var b := raw(k) % buckets.Length;
      prev, n, done, rest := Walk(buckets[b], chains[b], k);
      WalkDecides(k, n, done, rest);
      assert forall m :: m in done ==> m in chains[b];
    }

    /** `lookup_bb`, and the search of `get_jcc`. */
    method Lookup(k: K) returns (n: Node?<K>)
      requires Valid()
      ensures n == if k in index then index[k] else null
    {
      var prev, found, done, rest := Locate(k);
      n := found;
    }

    /** Double the table (and three more buckets). */
    method Resize()
      requires Filed()
      modifies this`buckets, this`chains, index.Values
      ensures Filed() && fresh(buckets) && buckets.Length == 2 * old(buckets.Length) + 3
    {
      var size := 2 * buckets.Length + 3;
      var t, c := Rehash(buckets, chains, index.Values, raw, size);
      buckets := t;
      chains := c;
    }

    /** Count one more entry and resize if the table would be more than 80% full. */
    method MakeRoom()
      requires Valid()
      modifies this`buckets, this`chains, this`entries, index.Values
      ensures Valid() && entries == old(entries) + 1
      ensures buckets == old(buckets) || fresh(buckets)
    {
      RoomyAfter(entries, buckets.Length);
      entries := entries + 1;
      if !Roomy(entries, buckets.Length) {
        Resize();
      }
    }

    /** Adopt the abstract view the links have been brought to. */
    ghost method SetView(c: seq<seq<Node<K>>>, view: map<K, Node<K>>)
      requires AllLinked(buckets, c, view.Values) && Holds(c, view.Values, raw) && KeysOk(view)
      requires Roomy(entries, buckets.Length)
      modifies this`chains, this`index
      ensures Valid() && index == view
    {
      chains, index := c, view;
    }

    /** Allocate a node for a new key and link it in. */
    method LinkNew(k: K) returns (n: Node<K>)
      requires Valid() && k !in index
      modifies this`chains, this`index, buckets
      ensures Valid() && fresh(n) && index == old(index)[k := n]
    {
      n := new Node(k);
      var b := raw(k) % buckets.Length;
      ghost var nodes := index.Values;
      HoldsOneMore(chains, nodes, raw, n);
      ValuesPlus(index, k, n);
      LinkIn(buckets, chains, nodes, b, n);
      ghost var longer := chains[b := [n] + chains[b]];
      assert AllLinked(buckets, longer, nodes + {n}) && Holds(longer, nodes + {n}, raw);
      SetView(longer, index[k := n]);
    }

    /** Add a node for a new key. */
    method Insert(k: K) returns (n: Node<K>)
      requires Valid() && k !in index
      modifies this, buckets, index.Values
      ensures Valid() && fresh(n) && index == old(index)[k := n] && entries == old(entries) + 1
      ensures buckets == old(buckets) || fresh(buckets)
    {
      MakeRoom();
      n := LinkNew(k);
    }

    /** `delete_bb`: unlink the node of a key, if there is one. */
    method Delete(k: K) returns (n: Node?<K>)
      requires Valid()
      modifies this`chains, this`index, buckets, index.Values
      ensures Valid() && index == old(index) - {k} && entries == old(entries)
      ensures n == if k in old(index) then old(index)[k] else null
    {
      var prev, found, done, rest := Locate(k);
      n := found;
      if n != null {
        Remove(k, raw(k) % buckets.Length, prev, n, done, rest);
      } else {
        assert index - {k} == index;
      }
    }

    /** Unlinking in bucket `b` leaves the other buckets linked. */
    method UnlinkAt(b: nat, prev: Node?<K>, n: Node<K>, ghost done: seq<Node<K>>, ghost rest: seq<Node<K>>)
      requires Valid() && b < buckets.Length && chains[b] == done + rest
      requires LeadsTo(buckets[b], done, n) && Linked(n, rest)
      requires prev == if done == [] then null else done[|done|-1]
      requires done != [] ==> LeadsTo(buckets[b], done[..|done|-1], prev)
      modifies buckets, Elems(done)
      ensures rest != [] && rest[0] == n
      ensures AllLinked(buckets, chains[b := done + rest[1..]], index.Values - {n})
      ensures Holds(chains[b := done + rest[1..]], index.Values - {n}, raw)
    {
      HoldsOneLess(chains, index.Values, raw, b, done, rest);
      label before:
      Unlink(buckets, b, prev, n, done, rest);
      forall i | 0 <= i < |chains| && i != b ensures Linked(buckets[i], chains[i]) {
        forall m | m in chains[i] ensures m !in Elems(done) {
          BucketApart(chains, index.Values, raw, b, i, m);
        }
        assert old@before(Linked(buckets[i], chains[i]));
      }
    }

    method Remove(k: K, b: nat, prev: Node?<K>, n: Node<K>, ghost done: seq<Node<K>>, ghost rest: seq<Node<K>>)
      requires Valid() && k in index && n == index[k] && b < buckets.Length && chains[b] == done + rest
      requires LeadsTo(buckets[b], done, n) && Linked(n, rest)
      requires prev == if done == [] then null else done[|done|-1]
      requires done != [] ==> LeadsTo(buckets[b], done[..|done|-1], prev)
      modifies this`chains, this`index, buckets, Elems(done)
      ensures Valid() && index == old(index) - {k}
    {
      ValuesMinus(index, k);
      UnlinkAt(b, prev, n, done, rest);
      ghost var left, cut, fewer := index.Values - {n}, chains[b := done + rest[1..]], index - {k};
      assert fewer.Values == left && KeysOk(fewer);
      SetView(cut, fewer);
    }
  }

  /** No other bucket shares a node with bucket `b`. */
  lemma {:induction false} BucketApart<K>(chains: seq<seq<Node<K>>>, nodes: set<Node<K>>, raw: K -> nat, b: nat, i: nat, m: Node<K>)
    requires Holds(chains, nodes, raw) && b < |chains| && i < |chains| && i != b && m in chains[i]
    ensures m !in chains[b]
  {
    assert raw(m.key) % |chains| == i;
  }

  /** Take a node out of its chain: its predecessor, or the bucket, skips it. */
  method Unlink<K>(t: array<Node?<K>>, b: nat, prev: Node?<K>, n: Node<K>, ghost done: seq<Node<K>>, ghost rest: seq<Node<K>>)
    requires b < t.Length && Distinct(done + rest) && LeadsTo(t[b], done, n) && Linked(n, rest)
    requires prev == if done == [] then null else done[|done|-1]
    requires done != [] ==> LeadsTo(t[b], done[..|done|-1], prev)
    modifies t, Elems(done)
    ensures rest != [] && Linked(t[b], done + rest[1..])
    ensures forall i :: 0 <= i < t.Length && i != b ==> t[i] == old(t[i])
  {
    if prev == null {
      t[b] := n.next;
      assert done + rest[1..] == rest[1..];
    } else {
      ghost var front := done[..|done|-1];
      assert done == front + [prev];
      PrevApart(done + rest, front, prev, rest);
      prev.next := n.next;
      assert Linked(prev.next, rest[1..]) && LeadsTo(t[b], front, prev);
      assert ([prev] + rest[1..])[1..] == rest[1..];
      LinkedSplit(t[b], front, prev, [prev] + rest[1..]);
      assert done + rest[1..] == front + ([prev] + rest[1..]);
    }
  }

  lemma {:induction false} PrevApart<K>(c: seq<Node<K>>, front: seq<Node<K>>, prev: Node<K>, rest: seq<Node<K>>)
    requires Distinct(c) && c == front + [prev] + rest
    ensures prev !in front && prev !in rest
  {
    assert c[|front|] == prev;
    assert forall i :: 0 <= i < |front| ==> c[i] == front[i];
    assert forall i :: 0 <= i < |rest| ==> c[|front|+1+i] == rest[i];
  }

  /** Cutting one element out of a list without repetitions. */
  lemma {:induction false} DistinctCut<T>(c: seq<T>, done: seq<T>, n: T, tail: seq<T>)
    requires Distinct(c) && c == done + [n] + tail
    ensures Distinct(done + tail)
    ensures forall m :: m in done + tail ==> m in c && m != n
    ensures forall m :: m in c && m != n ==> m in done + tail
  {
    var cut := done + tail;
    assert c[|done|] == n;
    assert forall i :: 0 <= i < |done| ==> c[i] == cut[i];
    assert forall i :: |done| <= i < |cut| ==> c[i+1] == cut[i];
    forall m | m in c && m != n ensures m in cut {
      var i :| 0 <= i < |c| && c[i] == m;
      assert if i < |done| then cut[i] == m else cut[i-1] == m;
    }
  }

  lemma {:induction false} ValuesPlus<K>(index: map<K, Node<K>>, k: K, n: Node<K>)
    requires k !in index
    ensures index[k := n].Values == index.Values + {n}
  {
    var after := index[k := n];
    assert after[k] == n;
    forall m | m in index.Values ensures m in after.Values {
      var q :| q in index && index[q] == m;
      assert after[q] == m;
    }
  }

  lemma {:induction false} ValuesMinus<K>(index: map<K, Node<K>>, k: K)
    requires k in index && KeysOk(index)
    ensures (index - {k}).Values == index.Values - {index[k]}
  {
    var after := index - {k};
    forall m | m in index.Values - {index[k]} ensures m in after.Values {
      var q :| q in index && index[q] == m;
      assert after[q] == m;
    }
  }

  lemma {:induction false} HoldsOneLess<K>(chains: seq<seq<Node<K>>>, nodes: set<Node<K>>, raw: K -> nat, b: nat,
                        done: seq<Node<K>>, rest: seq<Node<K>>)
    requires Holds(chains, nodes, raw) && b < |chains| && chains[b] == done + rest && rest != []
    ensures Holds(chains[b := done + rest[1..]], nodes - {rest[0]}, raw)
  {
    var n, after := rest[0], chains[b := done + rest[1..]];
    assert chains[b] == done + [n] + rest[1..];
    DistinctCut(chains[b], done, n, rest[1..]);
    forall m | m in nodes - {n} ensures m in after[raw(m.key) % |after|] {
      assert m in chains[raw(m.key) % |chains|];
    }
    forall i, m | 0 <= i < |after| && m in after[i] ensures m in nodes - {n} && raw(m.key) % |after| == i {
      assert m in chains[i];
    }
  }

  predicate Roomy(entries: nat, size: nat)
  {
    size > 0 && 10 * entries / size <= 8
  }

  lemma {:induction false} AtMostEight(x: nat, d: nat)
    requires d > 0
    ensures x / d <= 8 <==> x < 9 * d
  {
    var q, r := x / d, x % d;
    assert x == q * d + r;
    if q <= 8 {
      assert q * d <= 8 * d;
    } else {
      assert 9 * d <= q * d;
    }
  }

  /** One more entry fits after doubling. */
  lemma {:induction false} RoomyAfter(entries: nat, size: nat)
    requires Roomy(entries, size)
    ensures Roomy(entries + 1, 2 * size + 3)
  {
    AtMostEight(10 * entries, size);
    AtMostEight(10 * (entries + 1), 2 * size + 3);
  }
}
