/**
 The chained hash table of module LruTable as the shard of module LruShard uses it: the shard's map from keys to
 handles, with the hash of each key beside it.
 */
module LruKeyTable {
  import opened Basics
  import opened LruTable
  import LruList
  import LruShard

  /** The hash is computed from the key. */
  ghost predicate HashOk(hash: Key -> nat) {
    forall k :: hash(k) < HASHES
  }

  /** The chained table holds the shard's map. */
  ghost predicate Joined(contents: Map, table: map<Key, nat>, hash: Key -> nat) {
    && (forall k :: k in table ==> (k, hash(k)) in contents && contents[(k, hash(k))] == table[k])
    && (forall p :: p in contents ==> p.0 in table && p.1 == hash(p.0))
  }

  lemma JoinedStore(contents: Map, table: map<Key, nat>, hash: Key -> nat, key: Key, e: nat)
    requires Joined(contents, table, hash)
    ensures Joined(contents[(key, hash(key)) := e], table[key := e], hash)
  {
  }

  lemma JoinedDrop(contents: Map, table: map<Key, nat>, hash: Key -> nat, key: Key)
    requires Joined(contents, table, hash)
    ensures Joined(contents - {(key, hash(key))}, table - {key}, hash)
  {
  }

  lemma JoinedFind(contents: Map, table: map<Key, nat>, hash: Key -> nat, key: Key)
    requires Joined(contents, table, hash)
    ensures (key, hash(key)) in contents <==> key in table
    ensures key in table ==> contents[(key, hash(key))] == table[key]
  {
  }

  method Create(max: nat, ghost hash: Key -> nat) returns (t: LRUHandleTable)
    ensures fresh(t) && t.Valid() && Joined(t.contents, map[], hash)
  {
    t := new LRUHandleTable(max);
  }

  method Lookup(t: LRUHandleTable, key: Key, hash: Key -> nat, ghost table: map<Key, nat>) returns (e: Option<nat>)
    requires t.Valid() && HashOk(hash) && Joined(t.contents, table, hash)
    ensures e == if key in table then Some(table[key]) else None
  {
    hide Joined, Holds;
    JoinedFind(t.contents, table, hash, key);
    e := t.Lookup(key, hash(key));
  }

  /** Stores handle e for the key; what was there before comes back. */
  method Insert(t: LRUHandleTable, key: Key, e: nat, hash: Key -> nat, ghost table: map<Key, nat>)
    returns (replaced: Option<nat>)
    requires t.Valid() && HashOk(hash) && Joined(t.contents, table, hash)
    modifies t, t.list
    ensures t.Valid() && Joined(t.contents, table[key := e], hash) && (t.list == old(t.list) || fresh(t.list))
    ensures replaced == if key in table then Some(table[key]) else None
  {
    hide Joined, Holds;
    JoinedFind(t.contents, table, hash, key);
    JoinedStore(t.contents, table, hash, key, e);
    replaced := t.Insert(Node(e, key, hash(key)));
  }

  /** Takes the key out; the handle that was there comes back. */
  method Remove(t: LRUHandleTable, key: Key, hash: Key -> nat, ghost table: map<Key, nat>) returns (e: Option<nat>)
    requires t.Valid() && HashOk(hash) && Joined(t.contents, table, hash)
    modifies t, t.list
    ensures t.Valid() && Joined(t.contents, table - {key}, hash) && t.list == old(t.list)
    ensures e == if key in table then Some(table[key]) else None
  {
    hide Joined, Holds;
    JoinedFind(t.contents, table, hash, key);
    JoinedDrop(t.contents, table, hash, key);
    e := t.Remove(key, hash(key));
  }

  /** With the shard's invariant, the chains hold exactly the handles that are in the cache, each in the bucket of its
      hash. */
  lemma ChainsHoldCache(t: LRUHandleTable, heap: seq<LruList.Handle>, table: map<Key, nat>, hash: Key -> nat, x: Node)
    requires t.Valid() && HashOk(hash) && Joined(t.contents, table, hash) && LruShard.TableOk(heap, table)
    ensures (exists i: nat :: i < t.list.Length && x in t.list[i]) <==>
      0 < x.id < |heap| && heap[x.id].inCache && heap[x.id].key == x.key && x.hash == hash(x.key)
    ensures forall i: nat :: i < t.list.Length && x in t.list[i] ==> i == Index(x.hash, t.bits)
  {
    hide Index;
    var bs := t.list[..];
    forall i: nat | i < |bs| && x in bs[i]
      ensures NodeOk(x, i, t.bits, t.contents)
    {
      var j :| 0 <= j < |bs[i]| && bs[i][j] == x;
      assert ChainOk(bs[i], i, t.bits, t.contents);
    }
    if 0 < x.id < |heap| && heap[x.id].inCache && heap[x.id].key == x.key && x.hash == hash(x.key) {
      assert table[x.key] == x.id;
      assert Present(bs, K(x), t.bits, t.contents);
    }
  }
}
