/**
 LRUHandleTable: an array of chains, indexed by the upper hash bits, that doubles when it is full.

 It refines a map from key and hash to handle.  A chain is the sequence of its nodes.
 */
module LruTable {
  import opened Basics
  import opened ClockProbe

  type Key = string

  /** What the table knows of a handle: which one it is, its key and its 32-bit hash. */
  datatype Node = Node(id: nat, key: Key, hash: nat)

  type Map = map<(Key, nat), nat>

  function K(x: Node): (Key, nat) {
    (x.key, x.hash)
  }

  // ---------------------------------------------------------------- upper hash bits

  const HASHES: nat := 0x1_0000_0000

  lemma HashesArePow2()
    ensures Pow2(32) == HASHES
  {
    Pow2Add(16, 16);
    Pow2Add(8, 8);
    assert Pow2(8) == 256 by { Pow2Add(4, 4); }
  }

  function Quotient(x: nat, m: nat): nat
    requires m > 0
  {
    x / m
  }

  /** hash >> (32 - bits). */
  function Index(hash: nat, bits: nat): nat
    requires bits <= 32
  {
    Quotient(hash, Pow2(32 - bits))
  }

  lemma {:induction false} Pow2Add(a: nat, b: nat)
    ensures Pow2(a + b) == Pow2(a) * Pow2(b)
  {
    if b > 0 {
      Pow2Add(a, b - 1);
      assert a + b - 1 == a + (b - 1);
    }
  }

  lemma QuotientBelow(x: nat, m: nat, n: nat)
    requires m > 0 && x < n * m
    ensures Quotient(x, m) < n
  {
    var q := x / m;
    assert x == m * q + x % m;
    assert q >= n ==> m * q >= m * n;
  }

  lemma IndexInRange(hash: nat, bits: nat)
    requires bits <= 32 && hash < HASHES
    ensures Index(hash, bits) < Pow2(bits)
  {
    HashesArePow2();
    hide Pow2;
    Pow2Add(bits, 32 - bits);
    QuotientBelow(hash, Pow2(32 - bits), Pow2(bits));
  }

  // ---------------------------------------------------------------- the table holds the map

  predicate NoRepeat(chain: seq<Node>) {
    forall a, b :: 0 <= a < b < |chain| ==> K(chain[a]) != K(chain[b])
  }

  ghost predicate NodeOk(x: Node, i: nat, bits: nat, m: Map)
    requires bits <= 32
  {
    x.hash < HASHES && Index(x.hash, bits) == i && K(x) in m && m[K(x)] == x.id
  }

  ghost predicate ChainOk(chain: seq<Node>, i: nat, bits: nat, m: Map)
    requires bits <= 32
  {
    NoRepeat(chain) && forall j :: 0 <= j < |chain| ==> NodeOk(chain[j], i, bits, m)
  }

  /** The node for k is in its bucket. */
  ghost predicate Present(bs: seq<seq<Node>>, k: (Key, nat), bits: nat, m: Map)
    requires bits <= 32 && k in m
  {
    k.1 < HASHES && Index(k.1, bits) < |bs| && Node(m[k], k.0, k.1) in bs[Index(k.1, bits)]
  }

  /** The buckets hold exactly the map: every node is in the bucket of its hash, once. */
  ghost predicate Holds(bs: seq<seq<Node>>, bits: nat, m: Map) {
    && bits <= 32 && |bs| == Pow2(bits)
    && (forall i: nat :: i < |bs| ==> ChainOk(bs[i], i, bits, m))
    && (forall k :: k in m ==> Present(bs, k, bits, m))
  }

  /** Where the search in a chain ends: at the node for k, or at the end. */
  predicate FoundAt(chain: seq<Node>, k: (Key, nat), j: nat) {
    && j <= |chain| && (forall a :: 0 <= a < j ==> K(chain[a]) != k)
    && (j < |chain| ==> K(chain[j]) == k)
  }

  lemma SearchIsLookup(bs: seq<seq<Node>>, bits: nat, m: Map, k: (Key, nat), j: nat)
    requires Holds(bs, bits, m) && k.1 < HASHES && Index(k.1, bits) < |bs| && FoundAt(bs[Index(k.1, bits)], k, j)
    ensures j < |bs[Index(k.1, bits)]| <==> k in m
    ensures k in m ==> bs[Index(k.1, bits)][j] == Node(m[k], k.0, k.1)
  {
    var i := Index(k.1, bits);
    assert ChainOk(bs[i], i, bits, m);
    if k in m {
      assert Present(bs, k, bits, m);
      var a :| 0 <= a < |bs[i]| && bs[i][a] == Node(m[k], k.0, k.1);
      assert K(bs[i][a]) == k;
    }
    if j < |bs[i]| { assert NodeOk(bs[i][j], i, bits, m); }
  }

  /** Insert puts the new node where the search ended. */
  function Stored(chain: seq<Node>, j: nat, x: Node): seq<Node>
    requires j <= |chain|
  {
    if j < |chain| then chain[j := x] else chain + [x]
  }

  lemma StoreChain(chain: seq<Node>, i: nat, bits: nat, m: Map, x: Node, j: nat)
    requires bits <= 32 && ChainOk(chain, i, bits, m) && FoundAt(chain, K(x), j)
    requires x.hash < HASHES && Index(x.hash, bits) == i
    ensures ChainOk(Stored(chain, j, x), i, bits, m[K(x) := x.id])
  {
    hide Index;
    var r := Stored(chain, j, x);
    forall a | 0 <= a < |r| ensures NodeOk(r[a], i, bits, m[K(x) := x.id]) {
      if a != j { assert NodeOk(chain[a], i, bits, m); }
    }
  }

  lemma StoreOther(chain: seq<Node>, i: nat, bits: nat, m: Map, x: Node)
    requires bits <= 32 && ChainOk(chain, i, bits, m) && Index(x.hash, bits) != i
    ensures ChainOk(chain, i, bits, m[K(x) := x.id])
  {
    forall a | 0 <= a < |chain| ensures NodeOk(chain[a], i, bits, m[K(x) := x.id]) {
      assert NodeOk(chain[a], i, bits, m);
    }
  }

  lemma StoreHolds(bs: seq<seq<Node>>, bits: nat, m: Map, x: Node, j: nat)
    requires Holds(bs, bits, m) && x.hash < HASHES && Index(x.hash, bits) < |bs|
    requires FoundAt(bs[Index(x.hash, bits)], K(x), j)
    ensures Holds(bs[Index(x.hash, bits) := Stored(bs[Index(x.hash, bits)], j, x)], bits, m[K(x) := x.id])
  {
    hide Index, ChainOk;
    var i := Index(x.hash, bits);
    var rr, mm := bs[i := Stored(bs[i], j, x)], m[K(x) := x.id];
    forall h: nat | h < |rr| ensures ChainOk(rr[h], h, bits, mm) {
      assert ChainOk(bs[h], h, bits, m);
      if h == i { StoreChain(bs[i], i, bits, m, x, j); } else { StoreOther(bs[h], h, bits, m, x); }
    }
    assert rr[i][j] == x;
    forall k | k in mm ensures Present(rr, k, bits, mm) {
      if k != K(x) {
        assert Present(bs, k, bits, m);
        StillThere(bs, rr, i, j, x, Node(m[k], k.0, k.1), Index(k.1, bits));
      }
    }
  }

  lemma StillThere(bs: seq<seq<Node>>, rr: seq<seq<Node>>, i: nat, j: nat, x: Node, y: Node, h: nat)
    requires i < |bs| && j <= |bs[i]| && rr == bs[i := Stored(bs[i], j, x)] && h < |bs| && y in bs[h]
    requires j < |bs[i]| ==> K(bs[i][j]) == K(x)
    requires K(y) != K(x)
    ensures y in rr[h]
  {
    var a :| 0 <= a < |bs[h]| && bs[h][a] == y;
    assert rr[h][a] == y;
  }

  /** Remove takes the node out of its chain. */
  function Dropped(chain: seq<Node>, j: nat): seq<Node>
    requires j < |chain|
  {
    chain[..j] + chain[j + 1..]
  }

  lemma DropChain(chain: seq<Node>, i: nat, bits: nat, m: Map, k: (Key, nat), j: nat)
    requires bits <= 32 && ChainOk(chain, i, bits, m) && j < |chain| && K(chain[j]) == k
    ensures ChainOk(Dropped(chain, j), i, bits, m - {k})
  {
    hide Index;
    var r := Dropped(chain, j);
    forall a | 0 <= a < |r| ensures NodeOk(r[a], i, bits, m - {k}) {
      var b := if a >= j then a + 1 else a;
      assert r[a] == chain[b] && NodeOk(chain[b], i, bits, m) && K(chain[b]) != K(chain[j]);
    }
  }

  /** Nodes for other keys are in the other chains. */
  lemma OtherChain(chain: seq<Node>, i: nat, bits: nat, m: Map, k: (Key, nat))
    requires bits <= 32 && ChainOk(chain, i, bits, m) && Index(k.1, bits) != i
    ensures ChainOk(chain, i, bits, m - {k})
  {
    forall a | 0 <= a < |chain| ensures NodeOk(chain[a], i, bits, m - {k}) {
      assert NodeOk(chain[a], i, bits, m);
    }
  }

  lemma DropMember(chain: seq<Node>, j: nat, y: Node)
    requires j < |chain| && y in chain && y != chain[j]
    ensures y in Dropped(chain, j)
  {
    var a :| 0 <= a < |chain| && chain[a] == y;
    assert Dropped(chain, j)[if a < j then a else a - 1] == y;
  }

  lemma DropHolds(bs: seq<seq<Node>>, bits: nat, m: Map, k: (Key, nat), j: nat)
    requires Holds(bs, bits, m) && k.1 < HASHES && Index(k.1, bits) < |bs|
    requires FoundAt(bs[Index(k.1, bits)], k, j) && j < |bs[Index(k.1, bits)]|
    ensures Holds(bs[Index(k.1, bits) := Dropped(bs[Index(k.1, bits)], j)], bits, m - {k})
  {
    hide Index, Dropped, ChainOk;
    var i := Index(k.1, bits);
    var rr, mm := bs[i := Dropped(bs[i], j)], m - {k};
    forall h: nat | h < |rr| ensures ChainOk(rr[h], h, bits, mm) {
      assert ChainOk(bs[h], h, bits, m);
      if h == i { DropChain(bs[i], i, bits, m, k, j); } else { OtherChain(bs[h], h, bits, m, k); }
    }
    forall q | q in mm ensures Present(rr, q, bits, mm) {
      assert Present(bs, q, bits, m);
      if Index(q.1, bits) == i { DropMember(bs[i], j, Node(m[q], q.0, q.1)); }
    }
  }

  // ---------------------------------------------------------------- Resize

  /** The nodes of bucket i go to the buckets 2 i and 2 i + 1 of a table twice as long. */
  lemma IndexSplits(hash: nat, bits: nat)
    requires bits < 32
    ensures Quotient(Index(hash, bits + 1), 2) == Index(hash, bits)
  {
    var p := Pow2(31 - bits);
    assert Pow2(32 - bits) == 2 * p && 32 - (bits + 1) == 31 - bits;
    HalfQuotient(hash, p);
  }

  lemma HalfQuotient(x: nat, p: nat)
    requires p > 0
    ensures Quotient(Quotient(x, p), 2) == Quotient(x, 2 * p)
  {
    var q := x / p;
    var h, b := q / 2, q % 2;
    assert x == p * q + x % p;
    assert p * q == 2 * p * h + p * b;
    assert 0 <= p * b <= p;
    ModUnique(x, 2 * p, h, p * b + x % p);
  }

  /** y has been moved once the chains before i, and the first j nodes of chain i, are done. */
  ghost predicate AlreadyMoved(bs: seq<seq<Node>>, bits: nat, y: Node, i: nat, j: nat)
    requires bits <= 32
  {
    var h := Index(y.hash, bits);
    h < |bs| && y in bs[h] && (h < i || (h == i && j <= |bs[h]| && y in bs[h][..j]))
  }

  ghost predicate InNew(ns: seq<seq<Node>>, y: Node, bits: nat)
    requires bits < 32
  {
    Index(y.hash, bits + 1) < |ns| && y in ns[Index(y.hash, bits + 1)]
  }

  /** The new buckets hold exactly what has been moved. */
  ghost predicate Moved(bs: seq<seq<Node>>, bits: nat, m: Map, ns: seq<seq<Node>>, i: nat, j: nat) {
    && bits < 32 && |bs| == Pow2(bits) && |ns| == Pow2(bits + 1)
    && (forall h: nat :: h < |ns| ==> ChainOk(ns[h], h, bits + 1, m))
    && (forall h: nat, y: Node {:trigger y in ns[h]} :: h < |ns| && y in ns[h] ==> AlreadyMoved(bs, bits, y, i, j))
    && (forall y: Node {:trigger AlreadyMoved(bs, bits, y, i, j)} ::
          AlreadyMoved(bs, bits, y, i, j) ==> InNew(ns, y, bits))
  }

  lemma MoveNone(bs: seq<seq<Node>>, bits: nat, m: Map, ns: seq<seq<Node>>)
    requires bits < 32 && |bs| == Pow2(bits) && |ns| == Pow2(bits + 1) && forall h: nat :: h < |ns| ==> ns[h] == []
    ensures Moved(bs, bits, m, ns, 0, 0)
  {
  }

  lemma InChain(chain: seq<Node>, i: nat, bits: nat, m: Map, j: nat)
    requires bits <= 32 && ChainOk(chain, i, bits, m) && j < |chain|
    ensures NodeOk(chain[j], i, bits, m) && chain[j] !in chain[..j] && chain[..j + 1] == chain[..j] + [chain[j]]
  {
  }

  lemma PushChain(chain: seq<Node>, h: nat, bits: nat, m: Map, x: Node)
    requires bits <= 32 && ChainOk(chain, h, bits, m) && NodeOk(x, h, bits, m) && x !in chain
    ensures ChainOk([x] + chain, h, bits, m)
  {
    hide Index;
    var r := [x] + chain;
    forall a | 0 <= a < |chain| ensures NodeOk(chain[a], h, bits, m) && K(chain[a]) != K(x) {
      assert chain[a] != x;
    }
    forall a | 0 <= a < |r| ensures NodeOk(r[a], h, bits, m) {
      if a > 0 { assert r[a] == chain[a - 1]; }
    }
  }

  /** One node moves to the head of its new chain. */
  lemma MoveOne(bs: seq<seq<Node>>, bits: nat, m: Map, ns: seq<seq<Node>>, i: nat, j: nat)
    requires Holds(bs, bits, m) && Moved(bs, bits, m, ns, i, j) && i < |bs| && j < |bs[i]|
    ensures var x := bs[i][j]; var b := Index(x.hash, bits + 1);
      b < |ns| && Moved(bs, bits, m, ns[b := [x] + ns[b]], i, j + 1)
  {
    hide Index, ChainOk;
    var x := bs[i][j];
    assert ChainOk(bs[i], i, bits, m);
    InChain(bs[i], i, bits, m, j);
    IndexInRange(x.hash, bits + 1);
    var b := Index(x.hash, bits + 1);
    var rr := ns[b := [x] + ns[b]];
    assert x !in ns[b];
    forall h: nat | h < |rr| ensures ChainOk(rr[h], h, bits + 1, m) {
      assert ChainOk(ns[h], h, bits + 1, m);
      if h == b { PushChain(ns[b], b, bits + 1, m, x); }
    }
    forall h: nat, y: Node | h < |rr| && y in rr[h] ensures AlreadyMoved(bs, bits, y, i, j + 1) {
      if y != x { assert y in ns[h]; }
    }
    forall y: Node | AlreadyMoved(bs, bits, y, i, j + 1) ensures InNew(rr, y, bits) {
      if y != x { assert AlreadyMoved(bs, bits, y, i, j); }
    }
  }

  lemma MoveChainDone(bs: seq<seq<Node>>, bits: nat, m: Map, ns: seq<seq<Node>>, i: nat)
    requires i < |bs| && Moved(bs, bits, m, ns, i, |bs[i]|)
    ensures Moved(bs, bits, m, ns, i + 1, 0)
  {
    hide Index, ChainOk;
    assert bs[i][..|bs[i]|] == bs[i];
    forall h: nat, y: Node | h < |ns| && y in ns[h] ensures AlreadyMoved(bs, bits, y, i + 1, 0) {
      assert AlreadyMoved(bs, bits, y, i, |bs[i]|);
    }
    forall y: Node | AlreadyMoved(bs, bits, y, i + 1, 0) ensures InNew(ns, y, bits) {
      assert AlreadyMoved(bs, bits, y, i, |bs[i]|);
    }
  }

  /** The nodes of bucket i are now in the buckets 2 i and 2 i + 1, and nothing else is. */
  ghost predicate Split(bs: seq<seq<Node>>, ns: seq<seq<Node>>) {
    && |ns| == 2 * |bs|
    && (forall h: nat, y: Node {:trigger y in ns[h]} :: h < |ns| && y in ns[h] ==> y in bs[Quotient(h, 2)])
    && (forall i: nat, y: Node {:trigger y in bs[i]} :: i < |bs| && y in bs[i] ==> y in ns[2 * i] || y in ns[2 * i + 1])
  }

  lemma InBucket(bs: seq<seq<Node>>, bits: nat, m: Map, i: nat, y: Node)
    requires bits <= 32 && i < |bs| && ChainOk(bs[i], i, bits, m) && y in bs[i]
    ensures Index(y.hash, bits) == i
  {
    var j :| 0 <= j < |bs[i]| && bs[i][j] == y;
    InChain(bs[i], i, bits, m, j);
  }

  lemma MovedSplit(bs: seq<seq<Node>>, bits: nat, m: Map, ns: seq<seq<Node>>)
    requires Holds(bs, bits, m) && Moved(bs, bits, m, ns, |bs|, 0)
    ensures Split(bs, ns)
  {
    hide Index, ChainOk;
    assert |ns| == 2 * |bs| by { assert Pow2(bits + 1) == 2 * Pow2(bits); }
    forall h: nat, y: Node | h < |ns| && y in ns[h] ensures Quotient(h, 2) < |bs| && y in bs[Quotient(h, 2)] {
      assert ChainOk(ns[h], h, bits + 1, m) && AlreadyMoved(bs, bits, y, |bs|, 0);
      InBucket(ns, bits + 1, m, h, y);
      IndexSplits(y.hash, bits);
    }
    forall i: nat, y: Node | i < |bs| && y in bs[i] ensures y in ns[2 * i] || y in ns[2 * i + 1] {
      assert ChainOk(bs[i], i, bits, m);
      InBucket(bs, bits, m, i, y);
      assert AlreadyMoved(bs, bits, y, |bs|, 0);
      IndexSplits(y.hash, bits);
      assert InNew(ns, y, bits);
    }
  }

  lemma MovedAll(bs: seq<seq<Node>>, bits: nat, m: Map, ns: seq<seq<Node>>)
    requires Holds(bs, bits, m) && Moved(bs, bits, m, ns, |bs|, 0)
    ensures Holds(ns, bits + 1, m)
  {
    hide Index, ChainOk;
    forall k | k in m ensures Present(ns, k, bits + 1, m) {
      assert Present(bs, k, bits, m);
      assert AlreadyMoved(bs, bits, Node(m[k], k.0, k.1), |bs|, 0);
    }
  }

  // ---------------------------------------------------------------- the table

  class LRUHandleTable {
    var bits: nat                   // length_bits_
    var list: array<seq<Node>>
    var elems: nat
    const maxBits: nat              // max_length_bits_
    ghost var contents: Map

    ghost predicate Valid()
      reads this, list
    {
      4 <= bits <= 31 && Holds(list[..], bits, contents) && elems == |contents|
    }

    constructor (max: nat)
      ensures Valid() && contents == map[] && bits == 4 && maxBits == max && fresh(list)
    {
      bits, elems, maxBits, contents := 4, 0, max, map[];
      list := new seq<Node>[Pow2(4)](_ => []);
    }

    /** The bucket of the hash and where the search for the key in it ends. */
    method FindPointer(key: Key, hash: nat) returns (i: nat, j: nat)
      requires Valid() && hash < HASHES
      ensures i == Index(hash, bits) < list.Length && FoundAt(list[i], (key, hash), j)
      ensures j < |list[i]| <==> (key, hash) in contents
      ensures j < |list[i]| ==> list[i][j] == Node(contents[(key, hash)], key, hash)
    {
      hide Index, Pow2, ChainOk;
      IndexInRange(hash, bits);
      i, j := Index(hash, bits), 0;
      while j < |list[i]| && (list[i][j].hash != hash || key != list[i][j].key)
        invariant j <= |list[i]| && forall a :: 0 <= a < j ==> K(list[i][a]) != (key, hash)
      {
        j := j + 1;
      }
      SearchIsLookup(list[..], bits, contents, (key, hash), j);
    }

    method Lookup(key: Key, hash: nat) returns (r: Option<nat>)
      requires Valid() && hash < HASHES
      ensures r == if (key, hash) in contents then Some(contents[(key, hash)]) else None
    {
      var i, j := FindPointer(key, hash);
      r := if j < |list[i]| then Some(list[i][j].id) else None;
    }

    /** Replaces the handle for the same key, if there is one, and returns it. */
    method Insert(x: Node) returns (replaced: Option<nat>)
      requires Valid() && x.hash < HASHES
      modifies this, list
      ensures Valid() && contents == old(contents)[K(x) := x.id]
      ensures replaced == if K(x) in old(contents) then Some(old(contents)[K(x)]) else None
      ensures old(bits) <= bits <= old(bits) + 1 && (list == old(list) || fresh(list))
      ensures bits > old(bits) <==>
              elems > old(elems) && elems >= Pow2(old(bits)) && old(bits) < maxBits && old(bits) < 31
    {
      hide Holds, Index, Pow2, Stored, Quotient;
      var i, j := FindPointer(x.key, x.hash);
      StoreHolds(list[..], bits, contents, x, j);
      replaced := if j < |list[i]| then Some(list[i][j].id) else None;
      list[i] := Stored(list[i], j, x);
      contents := contents[K(x) := x.id];
      if replaced.None? {
        elems := elems + 1;
        QuotientPositive(elems, Pow2(bits));
        if Quotient(elems, Pow2(bits)) > 0 { Resize(); }
      }
    }

    /** Takes the handle for the key out and returns it. */
    method Remove(key: Key, hash: nat) returns (r: Option<nat>)
      requires Valid() && hash < HASHES
      modifies this, list
      ensures Valid() && contents == old(contents) - {(key, hash)} && bits == old(bits) && list == old(list)
      ensures r == if (key, hash) in old(contents) then Some(old(contents)[(key, hash)]) else None
    {
      hide Holds, Index, Pow2;
      var i, j := FindPointer(key, hash);
      if j < |list[i]| {
        r := Some(list[i][j].id);
        DropHolds(list[..], bits, contents, (key, hash), j);
        RemoveSize(contents, (key, hash));
        list[i] := Dropped(list[i], j);
        contents := contents - {(key, hash)};
        elems := elems - 1;
      } else {
        r := None;
      }
    }

    /** Doubles the number of buckets unless the hash has no more bits to offer; the contents stay. */
    method Resize()
      requires Valid()
      modifies this
      ensures Valid() && contents == old(contents) && elems == old(elems)
      ensures if old(bits) < maxBits && old(bits) < 31 then bits == old(bits) + 1 && fresh(list)
              else bits == old(bits) && list == old(list)
      ensures bits > old(bits) ==> Split(old(list[..]), list[..])
    {
      hide Holds, Moved, Index, Pow2, Split;
      HoldsSize(list[..], bits, contents);
      if bits >= maxBits { return; }
      if bits >= 31 { return; }
      var grown := new seq<Node>[Pow2(bits + 1)](_ => []);
      MoveNone(list[..], bits, contents, grown[..]);
      for i := 0 to list.Length
        modifies grown
        invariant Moved(list[..], bits, contents, grown[..], i, 0)
      {
        var chain := list[i];
        for j := 0 to |chain|
          modifies grown
          invariant Moved(list[..], bits, contents, grown[..], i, j)
        {
          MoveOne(list[..], bits, contents, grown[..], i, j);
          var b := Index(chain[j].hash, bits + 1);
          grown[b] := [chain[j]] + grown[b];
        }
        MoveChainDone(list[..], bits, contents, grown[..], i);
      }
      MovedAll(list[..], bits, contents, grown[..]);
      MovedSplit(list[..], bits, contents, grown[..]);
      list := grown;
      bits := bits + 1;
    }
  }

  lemma QuotientPositive(x: nat, m: nat)
    requires m > 0
    ensures Quotient(x, m) > 0 <==> x >= m
  {
    var q := x / m;
    assert x == m * q + x % m;
    assert q > 0 ==> m * q >= m;
  }

  lemma HoldsSize(bs: seq<seq<Node>>, bits: nat, m: Map)
    requires Holds(bs, bits, m)
    ensures |bs| == Pow2(bits)
  {
  }

  lemma RemoveSize(m: Map, k: (Key, nat))
    requires k in m
    ensures |m - {k}| == |m| - 1
  {
    assert m == (m - {k})[k := m[k]];
  }
}
