/**
 LRUCacheShard: the LRU list of module LruList, the table from keys to handles (module LruTable shows that the
 chained hash table is such a map), reference counts, and the shard's operations as they run under its mutex.
 */
module LruShard {
  import opened LruList
  import opened Sums

  // ---------------------------------------------------------------- what the handles have to satisfy

  /** Not freed yet. */
  predicate Alive(h: Handle) {
    h.inCache || h.refs > 0
  }

  /** The table holds exactly the handles that are in the cache. */
  ghost predicate TableOk(heap: seq<Handle>, table: map<Key, nat>) {
    && (forall k :: k in table ==> 0 < table[k] < |heap| && heap[table[k]].inCache && heap[table[k]].key == k)
    && (forall x: nat :: 0 < x < |heap| && heap[x].inCache ==> heap[x].key in table && table[heap[x].key] == x)
  }

  /** An object is disposed of exactly once, when its handle is neither in the cache nor referenced; a handle
      whose insertion failed is freed without touching the object. */
  predicate FateOk(h: Handle) {
    if Alive(h) then h.disposals == 0 && !h.rejected else h.disposals == if h.rejected then 0 else 1
  }

  /** Taken out, and about to be disposed of once the mutex is released. */
  predicate Doomed(h: Handle) {
    !Alive(h) && h.disposals == 0 && !h.rejected
  }

  /** On the list exactly when in the cache and not referenced. */
  ghost predicate MembersOk(heap: seq<Handle>, order: seq<nat>) {
    forall x: nat :: 0 < x < |heap| ==> (x in order <==> heap[x].inCache && heap[x].refs == 0)
  }

  predicate Distinct(ids: seq<nat>) {
    forall i, j :: 0 <= i < j < |ids| ==> ids[i] != ids[j]
  }

  ghost predicate FatesOk(heap: seq<Handle>, doomed: seq<nat>) {
    && (forall x: nat :: 0 < x < |heap| ==> if x in doomed then Doomed(heap[x]) else FateOk(heap[x]))
    && (forall i :: 0 <= i < |doomed| ==> 0 < doomed[i] < |heap|)
    && Distinct(doomed)
  }

  function Lives(heap: seq<Handle>): seq<int> {
    seq(|heap|, x requires 0 <= x < |heap| => if x > 0 && Alive(heap[x]) then heap[x].charge else 0)
  }

  function LiveCharge(heap: seq<Handle>): int {
    Sum(Lives(heap))
  }

  lemma LiveUpdate(heap: seq<Handle>, x: nat, h: Handle)
    requires 0 < x < |heap|
    ensures LiveCharge(heap[x := h]) == LiveCharge(heap) - (if Alive(heap[x]) then heap[x].charge else 0)
                                        + (if Alive(h) then h.charge else 0)
  {
    assert Lives(heap[x := h]) == Lives(heap)[x := if Alive(h) then h.charge else 0];
    SumUpdate(Lives(heap), x, if Alive(h) then h.charge else 0);
  }

  lemma LiveAppend(heap: seq<Handle>, h: Handle)
    requires |heap| > 0
    ensures LiveCharge(heap + [h]) == LiveCharge(heap) + if Alive(h) then h.charge else 0
  {
    assert Lives(heap + [h]) == Lives(heap) + [if Alive(h) then h.charge else 0];
    SumAppend(Lives(heap), if Alive(h) then h.charge else 0);
  }

  lemma LiveSame(h: seq<Handle>, r: seq<Handle>)
    requires SameButList(h, r)
    ensures LiveCharge(r) == LiveCharge(h)
  {
    assert Lives(r) == Lives(h);
  }

  /** Table, list, reference counts, fates and usage agree; `doomed` are waiting to be disposed of. */
  ghost predicate Core(heap: seq<Handle>, table: map<Key, nat>, order: seq<nat>, doomed: seq<nat>, usage: int) {
    |heap| > 0 && TableOk(heap, table) && MembersOk(heap, order) && FatesOk(heap, doomed) && usage == LiveCharge(heap)
  }

  lemma CoreSame(h: seq<Handle>, r: seq<Handle>, table: map<Key, nat>, order: seq<nat>, doomed: seq<nat>, usage: int)
    requires Core(h, table, order, doomed, usage) && SameButList(h, r)
    ensures Core(r, table, order, doomed, usage)
  {
    hide LiveCharge;
    LiveSame(h, r);
  }

  /** Only membership matters, not the order. */
  lemma CoreReorder(heap: seq<Handle>, table: map<Key, nat>, order: seq<nat>, other: seq<nat>, doomed: seq<nat>,
                    usage: int)
    requires Core(heap, table, order, doomed, usage) && forall x: nat :: x in order <==> x in other
    ensures Core(heap, table, other, doomed, usage)
  {
    hide LiveCharge;
  }

  lemma {:induction false} IndexIs(order: seq<nat>, i: nat)
    requires i < |order| && Distinct(order)
    ensures IndexOf(order, order[i]) == i
  {
    if i > 0 {
      assert order[i] == order[1..][i - 1];
      assert order[0] != order[i];
      IndexIs(order[1..], i - 1);
    }
  }

  lemma WithoutIs(g: Segs, i: nat)
    requires i < |Order(g)| && Distinct(Order(g))
    ensures Without(g, Order(g)[i]) == CutSegs(g, i)
  {
    IndexIs(Order(g), i);
  }

  lemma NotThere(g: Segs, e: nat)
    ensures e !in Order(g) ==> Without(g, e) == g
  {
  }

  lemma DropNone(g: Segs)
    ensures DropOldest(g, 0) == g
  {
  }

  lemma DropOneMore(g: Segs, k: nat)
    requires k < |Order(g)| && Distinct(Order(g))
    ensures Without(DropOldest(g, k), Order(g)[k]) == DropOldest(g, k + 1)
  {
    var d := DropOldest(g, k);
    assert Order(d)[0] == Order(g)[k];
    WithoutIs(d, 0);
  }

  lemma DisposedWeights(h: seq<Handle>, r: seq<Handle>, ids: seq<nat>)
    requires AllDisposed(h, r, ids)
    ensures SameWeights(h, r)
  {
  }

  lemma CutOut(order: seq<nat>, i: nat)
    requires i < |order| && Distinct(order)
    ensures forall x: nat :: x in Cut(order, i) <==> x in order && x != order[i]
  {
    forall x: nat ensures x in Cut(order, i) <==> x in order && x != order[i] { CutMembers(order, i, x); }
  }

  /** The unreferenced entry order[i] leaves the cache: EvictFromLRU, Erase, EraseUnRefEntries, overwriting. */
  lemma CoreDrop(heap: seq<Handle>, table: map<Key, nat>, order: seq<nat>, doomed: seq<nat>, usage: int, i: nat)
    requires Core(heap, table, order, doomed, usage) && i < |order| && Distinct(order) && 0 < order[i] < |heap|
    ensures var x := order[i];
      Core(heap[x := heap[x].(inCache := false)], table - {heap[x].key}, Cut(order, i), doomed + [x],
           usage - heap[x].charge)
  {
    hide LiveCharge;
    var x := order[i];
    CutOut(order, i);
    LiveUpdate(heap, x, heap[x].(inCache := false));
  }

  /** A doomed handle is disposed of. */
  lemma CoreDispose(heap: seq<Handle>, table: map<Key, nat>, order: seq<nat>, doomed: seq<nat>, usage: int)
    requires Core(heap, table, order, doomed, usage) && doomed != []
    ensures var x := doomed[0];
      0 < x < |heap| && Core(heap[x := heap[x].(disposals := heap[x].disposals + 1)], table, order, doomed[1..], usage)
  {
    hide LiveCharge;
    var x := doomed[0];
    LiveUpdate(heap, x, heap[x].(disposals := heap[x].disposals + 1));
    assert doomed == [x] + doomed[1..];
    assert x !in doomed[1..];
  }

  /** References change but do not go to or from zero. */
  lemma CoreRefs(heap: seq<Handle>, table: map<Key, nat>, order: seq<nat>, doomed: seq<nat>, usage: int, x: nat, n: nat,
                 hit: bool)
    requires Core(heap, table, order, doomed, usage) && 0 < x < |heap| && heap[x].refs > 0 && n > 0
    ensures Core(heap[x := heap[x].(refs := n, hit := hit)], table, order, doomed, usage)
  {
    hide LiveCharge;
    LiveUpdate(heap, x, heap[x].(refs := n, hit := hit));
  }

  /** The unreferenced entry order[i] is referenced. */
  lemma CorePin(heap: seq<Handle>, table: map<Key, nat>, order: seq<nat>, doomed: seq<nat>, usage: int, i: nat)
    requires Core(heap, table, order, doomed, usage) && i < |order| && Distinct(order) && 0 < order[i] < |heap|
    ensures var x := order[i];
      Core(heap[x := heap[x].(refs := 1, hit := true)], table, Cut(order, i), doomed, usage)
  {
    hide LiveCharge;
    CutOut(order, i);
    LiveUpdate(heap, order[i], heap[order[i]].(refs := 1, hit := true));
  }

  /** The last reference to an entry in the cache is given back, and the entry goes on the list. */
  lemma CoreUnpin(heap: seq<Handle>, table: map<Key, nat>, order: seq<nat>, doomed: seq<nat>, usage: int, x: nat)
    requires Core(heap, table, order, doomed, usage) && 0 < x < |heap| && heap[x].refs > 0 && heap[x].inCache
    ensures Core(heap[x := heap[x].(refs := 0)], table, order + [x], doomed, usage)
  {
    hide LiveCharge;
    LiveUpdate(heap, x, heap[x].(refs := 0));
  }

  /** The last reference to an entry is given back and the handle is doomed; it leaves the table if it is there. */
  lemma CoreFree(heap: seq<Handle>, table: map<Key, nat>, order: seq<nat>, doomed: seq<nat>, usage: int, x: nat)
    requires Core(heap, table, order, doomed, usage) && 0 < x < |heap| && heap[x].refs > 0
    ensures Core(heap[x := heap[x].(refs := 0, inCache := false)],
                 if heap[x].inCache then table - {heap[x].key} else table, order, doomed + [x], usage - heap[x].charge)
  {
    hide LiveCharge;
    LiveUpdate(heap, x, heap[x].(refs := 0, inCache := false));
  }

  /** A referenced entry leaves the table. */
  lemma CoreHide(heap: seq<Handle>, table: map<Key, nat>, order: seq<nat>, doomed: seq<nat>, usage: int, x: nat)
    requires Core(heap, table, order, doomed, usage) && 0 < x < |heap| && heap[x].refs > 0 && heap[x].inCache
    ensures Core(heap[x := heap[x].(inCache := false)], table - {heap[x].key}, order, doomed, usage)
  {
    hide LiveCharge;
    LiveUpdate(heap, x, heap[x].(inCache := false));
  }

  lemma FatesAdd(heap: seq<Handle>, doomed: seq<nat>, h: Handle)
    requires |heap| > 0 && FatesOk(heap, doomed) && (FateOk(h) || Doomed(h))
    ensures FatesOk(heap + [h], if FateOk(h) then doomed else doomed + [|heap|])
  {
    assert |heap| !in doomed;
  }

  /** A new entry goes into the cache under a key that is not taken. */
  lemma CoreAddCached(heap: seq<Handle>, table: map<Key, nat>, order: seq<nat>, doomed: seq<nat>, usage: int, h: Handle)
    requires Core(heap, table, order, doomed, usage) && h.inCache && FateOk(h) && h.key !in table
    requires forall i :: 0 <= i < |order| ==> order[i] < |heap|
    ensures Core(heap + [h], table[h.key := |heap|], if h.refs == 0 then order + [|heap|] else order, doomed,
                 usage + h.charge)
  {
    hide LiveCharge, FatesOk;
    LiveAppend(heap, h);
    FatesAdd(heap, doomed, h);
    assert |heap| !in order;
  }

  /** A new handle outside the cache: referenced, rejected or doomed. */
  lemma CoreAddLoose(heap: seq<Handle>, table: map<Key, nat>, order: seq<nat>, doomed: seq<nat>, usage: int, h: Handle)
    requires Core(heap, table, order, doomed, usage) && !h.inCache && (FateOk(h) || Doomed(h))
    requires forall i :: 0 <= i < |order| ==> order[i] < |heap|
    ensures Core(heap + [h], table, order, if FateOk(h) then doomed else doomed + [|heap|],
                 usage + if h.refs > 0 then h.charge else 0)
  {
    hide LiveCharge, FatesOk;
    LiveAppend(heap, h);
    FatesAdd(heap, doomed, h);
    assert |heap| !in order;
  }

  lemma ListIds(heap: seq<Handle>, g: Segs, p: Pools)
    requires Segmented(heap, g, p)
    ensures |heap| > 0 && Distinct(Order(g)) && forall i :: 0 <= i < |Order(g)| ==> 0 < Order(g)[i] < |heap|
    ensures heap[0].next == if Order(g) == [] then 0 else Order(g)[0]
  {
    assert LinkOk(heap, Order(g), 0);
  }

  lemma InCore(heap: seq<Handle>, table: map<Key, nat>, order: seq<nat>, doomed: seq<nat>, usage: int, x: nat)
    requires Core(heap, table, order, doomed, usage) && 0 < x < |heap|
    ensures x in order <==> heap[x].inCache && heap[x].refs == 0
    ensures if x in doomed then Doomed(heap[x]) else FateOk(heap[x])
    ensures heap[x].inCache ==> heap[x].key in table && table[heap[x].key] == x
  {
  }

  lemma InTable(heap: seq<Handle>, table: map<Key, nat>, order: seq<nat>, doomed: seq<nat>, usage: int, k: Key)
    requires Core(heap, table, order, doomed, usage) && k in table
    ensures 0 < table[k] < |heap| && heap[table[k]].inCache && heap[table[k]].key == k
  {
  }

  /** Only handles in ids changed, fields of the list aside. */
  ghost predicate Others(h: seq<Handle>, r: seq<Handle>, ids: seq<nat>) {
    && |h| <= |r|
    && forall x: nat {:trigger r[x]} :: x < |h| && x !in ids ==>
         r[x] == h[x].(next := r[x].next, prev := r[x].prev, inHigh := r[x].inHigh, inLow := r[x].inLow)
  }

  /** Equal, fields of the list aside. */
  predicate Became(want: Handle, got: Handle) {
    got == want.(next := got.next, prev := got.prev, inHigh := got.inHigh, inLow := got.inLow)
  }

  /** All of them are freed. */
  predicate AllDead(heap: seq<Handle>, ids: seq<nat>) {
    forall i :: 0 <= i < |ids| ==> ids[i] < |heap| && !Alive(heap[ids[i]])
  }

  lemma SameAt(h: seq<Handle>, r: seq<Handle>, x: nat)
    requires SameButList(h, r)
    ensures |r| == |h|
    ensures x < |h| ==> r[x] == h[x].(next := r[x].next, prev := r[x].prev, inHigh := r[x].inHigh, inLow := r[x].inLow)
  {
  }

  lemma OthersSame(h: seq<Handle>, r: seq<Handle>)
    requires SameButList(h, r)
    ensures Others(h, r, [])
  {
  }

  lemma OthersThen(a: seq<Handle>, b: seq<Handle>, c: seq<Handle>, ids: seq<nat>, more: seq<nat>)
    requires Others(a, b, ids) && Others(b, c, more)
    ensures Others(a, c, ids + more)
  {
  }

  lemma OthersEdit(h: seq<Handle>, x: nat, y: Handle)
    requires x < |h|
    ensures Others(h, h[x := y], [x])
  {
  }

  lemma OthersRefl(h: seq<Handle>)
    ensures Others(h, h, [])
  {
  }

  /** The next entry to evict has the charge it had at the start. */
  lemma EvictedCharge(h: seq<Handle>, r: seq<Handle>, order: seq<nat>, gone: seq<nat>, e: nat)
    requires Others(h, r, gone) && Distinct(order) && gone < order && e == order[|gone|] && e < |h| == |r|
    ensures e !in gone && r[e].charge == h[e].charge
    ensures Total(h, gone + [e]) == Total(h, gone) + h[e].charge
  {
    TotalPut(h, gone, e);
  }

  lemma OthersMore(h: seq<Handle>, r: seq<Handle>, x: nat)
    requires Others(h, r, [])
    ensures Others(h, r, [x])
  {
  }

  lemma OthersTwice(h: seq<Handle>, r: seq<Handle>, x: nat)
    requires Others(h, r, [x] + [x])
    ensures Others(h, r, [x])
  {
  }

  lemma OthersWithin(h: seq<Handle>, r: seq<Handle>, ids: seq<nat>, x: nat)
    requires Others(h, r, ids) && forall y: nat :: y in ids ==> y == x
    ensures Others(h, r, [x])
  {
  }

  /** LRU_Insert adds exactly e to the list. */
  lemma PutMembers(g: Segs, e: nat, level: Priority)
    ensures forall x: nat :: x in Order(PutSegs(g, e, level)) <==> x in Order(g) + [e]
  {
  }

  lemma OthersSubset(h: seq<Handle>, r: seq<Handle>, ids: seq<nat>, more: seq<nat>)
    requires Others(h, r, ids) && forall y: nat :: y in ids ==> y in more
    ensures Others(h, r, more)
  {
  }

  lemma OthersGrow(h: seq<Handle>, x: Handle)
    ensures Others(h, h + [x], [])
  {
  }

  /** A table with some keys taken out. */
  ghost predicate Within(table: map<Key, nat>, whole: map<Key, nat>) {
    forall k :: k in table ==> k in whole && table[k] == whole[k]
  }

  /** The handle in the table for a key. */
  function ForKey(table: map<Key, nat>, key: Key): seq<nat> {
    if key in table then [table[key]] else []
  }

  lemma OthersChain(a: seq<Handle>, b: seq<Handle>, c: seq<Handle>, d: seq<Handle>, x: seq<nat>, y: seq<nat>,
                    z: seq<nat>)
    requires Others(a, b, x) && Others(b, c, y) && AllDisposed(c, d, z)
    requires forall i: nat :: i in z && i < |a| ==> i in x + y
    ensures Others(a, d, x + y)
  {
  }

  lemma CutFirst(order: seq<nat>)
    requires order != []
    ensures Cut(order, 0) == order[1..]
  {
  }

  /** The list after the entry for the key (`ids`, if any) is replaced by e. */
  function AfterAccept(heap: seq<Handle>, g: Segs, ids: seq<nat>, e: nat, wantsHandle: bool, l: Limits): Segs
    requires e < |heap|
  {
    var left := if ids == [] then g else Without(g, ids[0]);
    if wantsHandle then left else Landed(heap, left, e, l)
  }

  lemma AfterAcceptSame(h: seq<Handle>, r: seq<Handle>, g: Segs, ids: seq<nat>, e: nat, wantsHandle: bool, l: Limits)
    requires SameWeights(h, r) && e < |h|
    ensures AfterAccept(r, g, ids, e, wantsHandle, l) == AfterAccept(h, g, ids, e, wantsHandle, l)
  {
    hide Landed, SameWeights;
    WeightsAt(h, r, e);
    LandedSame(h, r, if ids == [] then g else Without(g, ids[0]), e, l);
  }

  /** The list before e comes on it: the entry for the key is gone. */
  function Cleared(g: Segs, ids: seq<nat>): Segs {
    if ids == [] then g else Without(g, ids[0])
  }

  /** e is where it belongs, or not on the list if the caller gets a reference. */
  predicate Arrives(x: Handle, g: Segs, e: nat, wantsHandle: bool, l: Limits, now: seq<nat>) {
    if wantsHandle then now == Order(g) else Belongs(x, l.highRatio, l.lowRatio, g, e, now)
  }

  lemma AfterAcceptArrives(heap: seq<Handle>, g: Segs, ids: seq<nat>, e: nat, wantsHandle: bool, l: Limits)
    requires e < |heap| && l.highCap >= 0.0 && l.lowCap >= 0.0
    ensures Arrives(heap[e], Cleared(g, ids), e, wantsHandle, l, Order(AfterAccept(heap, g, ids, e, wantsHandle, l)))
  {
    hide Landed, Belongs, Without;
    if !wantsHandle { LandedBelongs(heap, Cleared(g, ids), e, l); }
  }

  lemma AfterAcceptIds(heap: seq<Handle>, g: Segs, ids: seq<nat>, more: seq<nat>, e: nat, wantsHandle: bool, l: Limits)
    requires e < |heap| && (ids == more || (ids == [] && |more| == 1 && more[0] !in Order(g)))
    ensures AfterAccept(heap, g, ids, e, wantsHandle, l) == AfterAccept(heap, g, more, e, wantsHandle, l)
  {
  }

  /** The entry for the key is still in the table after the evictions, or it was evicted. */
  lemma KeyAfterEviction(h: seq<Handle>, r: seq<Handle>, table: map<Key, nat>, now: map<Key, nat>, order: seq<nat>,
                         g: Segs, gone: seq<nat>, usage: int, left: int, key: Key)
    requires Core(h, table, order, [], usage) && Core(r, now, Order(g), gone, left) && Others(h, r, gone) && |r| == |h|
    requires Within(now, table) && gone <= order && Order(g) == order[|gone|..] && Distinct(order)
    ensures ForKey(now, key) == ForKey(table, key) ||
      (ForKey(now, key) == [] && |ForKey(table, key)| == 1 && ForKey(table, key)[0] !in Order(g))
    ensures forall y: nat :: y in ForKey(now, key) ==> y in ForKey(table, key)
    ensures forall i :: 0 <= i < |gone| ==> gone[i] < |h|
    ensures key in now <==> key in table && table[key] !in gone
  {
    hide LiveCharge;
    if key in table && key !in now {
      var x := table[key];
      assert 0 < x < |r| && h[x].inCache && h[x].key == key;
      assert x in gone || r[x].key == key;
      var i :| 0 <= i < |gone| && gone[i] == x;
      assert order[i] == x;
    }
    if key in now { DoomedIsOut(r, now, Order(g), gone, left, key); }
  }

  /** What is about to be disposed of is not in the table. */
  lemma DoomedIsOut(heap: seq<Handle>, table: map<Key, nat>, order: seq<nat>, doomed: seq<nat>, usage: int, key: Key)
    requires Core(heap, table, order, doomed, usage) && key in table
    ensures table[key] !in doomed
  {
  }

  lemma ForKeyBelow(heap: seq<Handle>, table: map<Key, nat>, order: seq<nat>, doomed: seq<nat>, usage: int, key: Key)
    requires Core(heap, table, order, doomed, usage)
    ensures forall y: nat :: y in ForKey(table, key) ==> y < |heap|
  {
    if key in table { InTable(heap, table, order, doomed, usage, key); }
  }

  /** The evicted entries `gone` and the replaced or refused one are disposed of; e is the new handle. */
  lemma Finished(h: seq<Handle>, first: seq<Handle>, mid: seq<Handle>, r: seq<Handle>, gone: seq<nat>, more: seq<nat>,
                 ids: seq<nat>, wide: seq<nat>, e: nat)
    requires Others(h, first, gone) && Others(first, mid, ids) && AllDisposed(mid, r, gone + more) && e == |h|
    requires AllDead(r, gone + more) && e < |mid| && e !in gone
    requires forall i: nat :: i in more && i < e ==> i in ids
    requires forall i: nat :: i in ids ==> i in wide
    ensures Others(h, r, gone + wide) && AllDead(r, gone) && SameWeights(mid, r) && |r| == |mid|
    ensures r[e] == if e in more then Disposed(mid[e]) else mid[e]
  {
    hide Others, AllDisposed, AllDead, SameWeights;
    DisposedWeights(mid, r, gone + more);
    DisposedAt(mid, r, gone + more, e);
    DeadPart(r, gone, more);
    OthersChain(h, first, mid, r, gone, ids, gone + more);
    OthersSubset(h, r, gone + ids, gone + wide);
  }

  function Disposed(h: Handle): Handle {
    h.(disposals := h.disposals + 1)
  }

  /** The handles in ids were disposed of, one disposal each; nothing else changed. */
  ghost predicate AllDisposed(h: seq<Handle>, r: seq<Handle>, ids: seq<nat>) {
    |r| == |h| && forall x: nat {:trigger r[x]} :: x < |h| ==> r[x] == if x in ids then Disposed(h[x]) else h[x]
  }

  lemma DisposedNone(h: seq<Handle>)
    ensures AllDisposed(h, h, [])
  {
  }

  lemma DisposeOne(h: seq<Handle>, r: seq<Handle>, ids: seq<nat>, n: nat)
    requires n < |ids| && Distinct(ids) && ids[n] < |h| && AllDisposed(h, r, ids[..n])
    ensures AllDisposed(h, r[ids[n] := Disposed(r[ids[n]])], ids[..n + 1])
  {
    assert ids[..n + 1] == ids[..n] + [ids[n]];
    assert ids[n] !in ids[..n];
  }

  lemma DisposedOthers(h: seq<Handle>, r: seq<Handle>, ids: seq<nat>)
    requires AllDisposed(h, r, ids)
    ensures Others(h, r, ids) && |r| == |h|
  {
  }

  lemma DisposedAt(h: seq<Handle>, r: seq<Handle>, ids: seq<nat>, x: nat)
    requires AllDisposed(h, r, ids)
    ensures |r| == |h|
    ensures x < |h| ==> r[x] == if x in ids then Disposed(h[x]) else h[x]
  {
  }

  lemma CoreDoomed(heap: seq<Handle>, table: map<Key, nat>, order: seq<nat>, doomed: seq<nat>, usage: int)
    requires Core(heap, table, order, doomed, usage)
    ensures Distinct(doomed) && forall i :: 0 <= i < |doomed| ==> 0 < doomed[i] < |heap|
    ensures AllDead(heap, doomed)
  {
    forall i | 0 <= i < |doomed| ensures Doomed(heap[doomed[i]]) { assert doomed[i] in doomed; }
  }

  lemma DeadPart(heap: seq<Handle>, ids: seq<nat>, more: seq<nat>)
    requires AllDead(heap, ids + more)
    ensures AllDead(heap, ids)
  {
    forall i | 0 <= i < |ids| ensures ids[i] < |heap| && !Alive(heap[ids[i]]) { assert (ids + more)[i] == ids[i]; }
  }

  lemma StillDead(h: seq<Handle>, r: seq<Handle>, ids: seq<nat>)
    requires AllDead(h, ids) && AllDisposed(h, r, ids)
    ensures AllDead(r, ids)
  {
  }

  /** `gone` are the oldest entries, and no more of them than it takes for `charge` to fit. */
  ghost predicate JustEnough(heap: seq<Handle>, order: seq<nat>, gone: seq<nat>, usage: int, charge: nat,
                             capacity: nat)
  {
    && gone <= order
    && (usage - Total(heap, gone) + charge <= capacity || gone == order)
    && forall j: nat :: j < |gone| ==> usage - Total(heap, gone[..j]) + charge > capacity
  }

  lemma UsedIsLast(heap: seq<Handle>, g: Segs, was: Segs, e: nat)
    requires Order(g) == was.bot + was.low + was.high + [e]
    ensures Order(g) == Order(was) + [e] && Order(g)[|Order(g)| - 1] == e
  {
  }

  /** The oldest entries include the newest one only if they are all. */
  lemma LastIsAll(order: seq<nat>, gone: seq<nat>)
    requires order != [] && Distinct(order) && gone <= order && order[|order| - 1] in gone
    ensures gone == order
  {
    var i :| 0 <= i < |gone| && gone[i] == order[|order| - 1];
    assert order[i] == gone[i];
  }

  datatype Op =
    | DoInsert(key: Key, charge: nat, pri: Priority, wantsHandle: bool)
    | DoLookup(key: Key)
    | DoRelease(e: nat, eraseIfLast: bool)
    | DoRef(e: nat)
    | DoErase(key: Key)
    | DoEraseUnRef
    | DoCreateStandalone(key: Key, charge: nat, allowUncharged: bool)
    | DoSetCapacity(c: nat)
    | DoSetStrict(on: bool)
    | DoSetHighRatio(ratio: real)
    | DoSetLowRatio(ratio: real)

  datatype Status = Ok | OkOverwritten | MemoryLimit

  /** What a run leaves behind it: the handles, the table, the list from the oldest entry on, and the settings. */
  datatype Shard = Shard(heap: seq<Handle>, table: map<Key, nat>, list: seq<nat>, capacity: nat, strict: bool,
                         highRatio: real, lowRatio: real)

  /** What a caller may do: handles are only used while they are referenced, the capacity is not lowered and
      ratios are not negative. */
  predicate Allowed(op: Op, heap: seq<Handle>, capacity: nat) {
    match op
    case DoRelease(e, _) => 0 < e < |heap| && heap[e].refs > 0
    case DoRef(e) => 0 < e < |heap| && heap[e].refs > 0
    case DoSetCapacity(c) => c >= capacity
    case DoSetHighRatio(r) => r >= 0.0
    case DoSetLowRatio(r) => r >= 0.0
    case _ => true
  }

  /** An operation sets what it is to set and no other setting. */
  predicate SettingsAfter(op: Op, s: Shard, r: Shard) {
    && r.capacity == (if op.DoSetCapacity? then op.c else s.capacity)
    && r.strict == (if op.DoSetStrict? then op.on else s.strict)
    && r.highRatio == (if op.DoSetHighRatio? then op.ratio else s.highRatio)
    && r.lowRatio == (if op.DoSetLowRatio? then op.ratio else s.lowRatio)
  }

  /** What each operation is for.  The contracts of the operations say the rest. */
  predicate Did(op: Op, s: Shard, r: Shard) {
    && |s.heap| <= |r.heap|
    && match op
       case DoInsert(key, charge, _, _) =>
         && |r.heap| == |s.heap| + 1 && r.heap[|s.heap|].key == key && r.heap[|s.heap|].charge == charge
         && (r.heap[|s.heap|].inCache ==> key in r.table && r.table[key] == |s.heap|)
       case DoLookup(key) =>
         && r.table == s.table
         && (key in s.table ==>
               s.table[key] < |s.heap| && r.heap[s.table[key]].refs == s.heap[s.table[key]].refs + 1)
       case DoRelease(e, _) => e < |s.heap| && r.heap[e].refs == s.heap[e].refs - 1
       case DoRef(e) => e < |s.heap| && r.heap[e].refs == s.heap[e].refs + 1
       case DoErase(key) => r.table == s.table - {key}
       case DoEraseUnRef => r.list == []
       case DoCreateStandalone(_, _, _) => |r.heap| == |s.heap| + 1 && !r.heap[|s.heap|].inCache
       case _ => |r.heap| == |s.heap|
  }

  /** One operation of a run; one that the caller may not do then is passed over. */
  predicate Went(op: Op, s: Shard, r: Shard) {
    if Allowed(op, s.heap, s.capacity) then SettingsAfter(op, s, r) && Did(op, s, r) else r == s
  }

  // ---------------------------------------------------------------- the shard

  function PoolCapacity(capacity: nat, ratio: real): (c: real)
    requires ratio >= 0.0
    ensures c >= 0.0
  {
    capacity as real * ratio
  }

  /** Ratios that add up to at most 1 share the capacity out. */
  lemma PoolsShareCapacity(capacity: nat, high: real, low: real)
    requires high >= 0.0 && low >= 0.0
    ensures PoolCapacity(capacity, high) + PoolCapacity(capacity, low) == PoolCapacity(capacity, high + low)
    ensures PoolCapacity(capacity, 1.0) == capacity as real
    ensures high + low <= 1.0 ==>
      PoolCapacity(capacity, high) + PoolCapacity(capacity, low) <= PoolCapacity(capacity, 1.0)
  {
    var c := capacity as real;
    assert c * high + c * low == c * (high + low);
    if high + low <= 1.0 { assert c * (1.0 - (high + low)) >= 0.0; }
  }

  lemma PoolCapacityGrows(c: nat, d: nat, ratio: real)
    requires c <= d && ratio >= 0.0
    ensures PoolCapacity(c, ratio) <= PoolCapacity(d, ratio)
  {
    var x := (d - c) as real;
    assert d as real == c as real + x;
    assert x * ratio >= 0.0;
  }

  /** lru_, pointing at itself. */
  const SENTINEL := Handle("", 0, Bottom, 0, false, false, false, false, 0, 0, 0, false)

  lemma EmptyList()
    ensures Segmented([SENTINEL], Segs([], [], []), Pools(0, 0, 0, 0, 0)) && Order(Segs([], [], [])) == []
  {
    hide Total;
    TotalNone([SENTINEL]);
    assert LinkOk([SENTINEL], [], 0);
    assert Order(Segs([], [], [])) == [];
  }

  lemma EmptyCore()
    ensures Core([SENTINEL], map[], [], [], 0)
  {
    SumZero(Lives([SENTINEL]));
  }

  class LRUCacheShard {
    var heap: seq<Handle>
    var table: map<Key, nat>
    var lowPri: nat
    var bottomPri: nat
    var highUsage: int
    var lowUsage: int
    var lruUsage: int
    var usage: int
    var capacity: nat
    var strict: bool
    var highRatio: real
    var lowRatio: real
    var highCap: real
    var lowCap: real
    ghost var segs: Segs

    function View(): Pools
      reads this
    {
      Pools(lowPri, bottomPri, highUsage, lowUsage, lruUsage)
    }

    function LimitsNow(): Limits
      reads this
    {
      Limits(highRatio, lowRatio, highCap, lowCap)
    }

    ghost function List(): seq<nat>
      reads this
    {
      Order(segs)
    }

    predicate CapsOk()
      reads this
    {
      && highRatio >= 0.0 && lowRatio >= 0.0
      && highCap == PoolCapacity(capacity, highRatio) && lowCap == PoolCapacity(capacity, lowRatio)
    }

    /** Everything but the disposals that are still to be made. */
    ghost predicate Inv(doomed: seq<nat>)
      reads this
    {
      CapsOk() && Segmented(heap, segs, View()) && Core(heap, table, List(), doomed, usage)
    }

    ghost predicate Valid()
      reads this
    {
      Inv([]) && (usage > capacity ==> List() == [])
    }

    predicate HighWithin()
      reads this
    {
      highUsage as real <= highCap
    }

    /** Both pools are within their limits. */
    predicate PoolsWithin()
      reads this
    {
      highUsage as real <= highCap && lowUsage as real <= lowCap
    }

    constructor (c: nat, strictLimit: bool, high: real, low: real)
      requires high >= 0.0 && low >= 0.0
      ensures Valid() && PoolsWithin() && capacity == c && strict == strictLimit && List() == [] && |heap| == 1
      ensures LimitsNow() == Limits(high, low, PoolCapacity(c, high), PoolCapacity(c, low))
      ensures table == map[] && usage == 0
    {
      hide Segmented, Core, PoolCapacity;
      heap := [SENTINEL];
      table, segs := map[], Segs([], [], []);
      lowPri, bottomPri, highUsage, lowUsage, lruUsage, usage := 0, 0, 0, 0, 0, 0;
      capacity, strict := c, strictLimit;
      highRatio, lowRatio := high, low;
      highCap, lowCap := PoolCapacity(c, high), PoolCapacity(c, low);
      new;
      EmptyList();
      EmptyCore();
    }

    // ---------------------------------------------------------------- list surgery

    method LRU_Remove(e: nat) returns (ghost i: nat)
      requires Segmented(heap, segs, View()) && e in List()
      modifies this`heap, this`lowPri, this`bottomPri, this`highUsage, this`lowUsage, this`lruUsage, this`segs
      ensures Segmented(heap, segs, View()) && SameButList(old(heap), heap)
      ensures i < |old(List())| && old(List())[i] == e && List() == Cut(old(List()), i)
      ensures segs == Without(old(segs), e)
      ensures highUsage <= old(highUsage) && lowUsage <= old(lowUsage)
    {
      hide Segmented, CutSegs, SameButList, Order, Unlink, Without;
      i :| 0 <= i < |List()| && List()[i] == e;
      ListIds(heap, segs, View());
      WithoutIs(segs, i);
      RemoveKeepsSegmented(heap, segs, View(), i);
      var x := heap[e];
      if lowPri == e { lowPri := x.prev; }
      if bottomPri == e { bottomPri := x.prev; }
      Unhook(e);
      lruUsage := lruUsage - x.charge;
      if x.inHigh {
        highUsage := highUsage - x.charge;
      } else if x.inLow {
        lowUsage := lowUsage - x.charge;
      }
      segs := CutSegs(segs, i);
      assert View() == RemovePools(old(heap), old(View()), e);
    }

    /** The link assignments of LRU_Remove. */
    method Unhook(e: nat)
      requires e < |heap| && 0 <= heap[e].next < |heap| && 0 <= heap[e].prev < |heap|
      modifies this`heap
      ensures heap == Unlink(old(heap), e)
    {
      var x := heap[e];
      heap := heap[x.next := heap[x.next].(prev := x.prev)];
      heap := heap[x.prev := heap[x.prev].(next := x.next)];
      heap := heap[e := heap[e].(next := NULL, prev := NULL)];
    }

    /** The high pool gives its oldest entries to the low pool while it is over its limit. */
    method OverflowHighPool()
      requires CapsOk() && Pooled(heap, segs, View()) && (HighWithin() || lowPri == Tail(segs.bot + segs.low))
      modifies this`heap, this`lowPri, this`highUsage, this`lowUsage, this`segs
      ensures Pooled(heap, segs, View()) && HighWithin() && SameButList(old(heap), heap) && List() == old(List())
      ensures Maintained(heap, segs, highCap, lowCap) == Maintained(old(heap), old(segs), highCap, lowCap)
      ensures if old(HighWithin()) then lowPri == old(lowPri) && segs == old(segs)
              else lowPri == Tail(segs.bot + segs.low)
    {
      hide Pooled, SameButList, Maintained, PoolCapacity, Order, Tail, PutFlags;
      SameRefl(heap);
      while highUsage as real > highCap
        invariant Pooled(heap, segs, View()) && SameButList(old(heap), heap) && List() == old(List())
        invariant if old(HighWithin()) then lowPri == old(lowPri) && segs == old(segs) && highUsage == old(highUsage)
                  else lowPri == Tail(segs.bot + segs.low)
        invariant Maintained(heap, segs, highCap, lowCap) == Maintained(old(heap), old(segs), highCap, lowCap)
        decreases |segs.high|
      {
        HighRound(old(heap), heap, segs, View(), highCap, lowCap);
        var x := heap[lowPri].next;
        var c := heap[x].charge;
        lowPri := x;
        heap := heap[x := PutFlags(heap[x], Low)];
        highUsage := highUsage - c;
        lowUsage := lowUsage + c;
        segs := Segs(segs.bot, segs.low + [segs.high[0]], segs.high[1..]);
      }
    }

    /** The low pool gives its oldest entries to the bottom while it is over its limit. */
    method OverflowLowPool()
      requires CapsOk() && Pooled(heap, segs, View()) && HighWithin()
      modifies this`heap, this`bottomPri, this`lowUsage, this`segs
      ensures Pooled(heap, segs, View()) && PoolsWithin() && SameButList(old(heap), heap) && List() == old(List())
      ensures Maintained(heap, segs, highCap, lowCap) == Maintained(old(heap), old(segs), highCap, lowCap)
      ensures segs.bot + segs.low == old(segs.bot + segs.low)
    {
      hide Pooled, SameButList, Maintained, PoolCapacity, Order, Tail, PutFlags;
      SameRefl(heap);
      while lowUsage as real > lowCap
        invariant Pooled(heap, segs, View()) && SameButList(old(heap), heap) && List() == old(List())
        invariant segs.bot + segs.low == old(segs.bot + segs.low)
        invariant Maintained(heap, segs, highCap, lowCap) == Maintained(old(heap), old(segs), highCap, lowCap)
        decreases |segs.low|
      {
        LowRound(old(heap), heap, segs, View(), highCap, lowCap);
        var x := heap[bottomPri].next;
        var c := heap[x].charge;
        bottomPri := x;
        heap := heap[x := PutFlags(heap[x], Bottom)];
        lowUsage := lowUsage - c;
        segs := Segs(segs.bot + [segs.low[0]], segs.low[1..], segs.high);
      }
    }

    /** Brings both pools within their limits; the two loops never reach the sentinel. */
    method MaintainPoolSize()
      requires CapsOk() && Pooled(heap, segs, View()) && (HighWithin() || lowPri == Tail(segs.bot + segs.low))
      modifies this`heap, this`lowPri, this`bottomPri, this`highUsage, this`lowUsage, this`segs
      ensures Pooled(heap, segs, View()) && PoolsWithin() && SameButList(old(heap), heap)
      ensures segs == Maintained(old(heap), old(segs), highCap, lowCap) && List() == old(List())
      ensures exists m: nat, k: nat :: LeastMoved(old(heap), old(segs), segs, m, k, highCap, lowCap)
      ensures if old(HighWithin()) then lowPri == old(lowPri) && segs.bot + segs.low == old(segs.bot + segs.low)
              else lowPri == Tail(segs.bot + segs.low)
    {
      hide Pooled, SameButList, Maintained, PoolCapacity, Total, Order, Tail;
      ghost var m, k := MaintainedLeast(heap, segs, highCap, lowCap);
      OverflowHighPool();
      ghost var mid := heap;
      OverflowLowPool();
      SameTrans(old(heap), mid, heap);
      PooledTotals(heap, segs, View());
      MaintainedIdle(heap, segs, highCap, lowCap);
    }

    /** Puts e at the newest end of its pool and lets the pools overflow.  In the low branch lru_low_pri_ moves
        only after MaintainPoolSize, which is right because the high pool is within its limit. */
    method LRU_Insert(e: nat)
      requires CapsOk() && Segmented(heap, segs, View()) && 0 < e < |heap| && e !in List()
      requires Level(heap[e], highRatio, lowRatio).Low? ==> HighWithin()
      modifies this`heap, this`lowPri, this`bottomPri, this`highUsage, this`lowUsage, this`lruUsage, this`segs
      ensures Segmented(heap, segs, View()) && SameButList(old(heap), heap)
      ensures segs == Landed(old(heap), old(segs), e, LimitsNow())
      ensures List() == Order(PutSegs(old(segs), e, Level(old(heap)[e], highRatio, lowRatio)))
      ensures Belongs(old(heap)[e], highRatio, lowRatio, old(segs), e, List())
      ensures old(PoolsWithin()) || !Level(old(heap)[e], highRatio, lowRatio).Bottom? ==> PoolsWithin()
    {
      hide Maintained, SameButList, PoolCapacity, Segmented, Order, PutSegs;
      var x := heap[e];
      LandedBelongs(heap, segs, e, LimitsNow());
      if highRatio > 0.0 && (x.pri.High? || x.hit) {
        InsertHigh(e);
      } else if lowRatio > 0.0 && (x.pri.High? || x.pri.Low? || x.hit) {
        InsertLow(e);
      } else {
        InsertBottom(e);
      }
    }

    method InsertHigh(e: nat)
      requires CapsOk() && Segmented(heap, segs, View()) && 0 < e < |heap| && e !in List()
      modifies this`heap, this`lowPri, this`bottomPri, this`highUsage, this`lowUsage, this`lruUsage, this`segs
      ensures Segmented(heap, segs, View()) && SameButList(old(heap), heap) && PoolsWithin()
      ensures var put := PutSegs(old(segs), e, High);
        List() == Order(put) && segs == Maintained(old(heap), put, highCap, lowCap)
    {
      hide LinkAfter, Linked, Total, Maintained, SameButList, PoolCapacity, Segmented, Pooled;
      OpenSegmented(heap, segs, View());
      PooledLinked(heap, segs, View());
      PutPlace(heap, segs, High);
      PutKeepsPooled(heap, segs, View(), e, High);
      ghost var c := PutSegs(segs, e, High);
      HookAfter(e, heap[0].prev);
      heap := heap[e := PutFlags(heap[e], High)];
      highUsage := highUsage + heap[e].charge;
      segs := c;
      ghost var mid := heap;
      SameAt(old(heap), mid, e);
      MaintainPoolSize();
      SameTrans(old(heap), mid, heap);
      SameAt(mid, heap, e);
      MaintainedSame(old(heap), mid, c, highCap, lowCap);
      TotalSame(mid, heap, Order(c));
      PooledLinked(heap, segs, View());
      lruUsage := lruUsage + heap[e].charge;
      OpenSegmented(heap, segs, View());
    }

    /** lru_low_pri_ moves only after MaintainPoolSize, which is right because the high pool is within its limit. */
    method InsertLow(e: nat)
      requires CapsOk() && Segmented(heap, segs, View()) && 0 < e < |heap| && e !in List() && HighWithin()
      modifies this`heap, this`lowPri, this`bottomPri, this`highUsage, this`lowUsage, this`lruUsage, this`segs
      ensures Segmented(heap, segs, View()) && SameButList(old(heap), heap) && PoolsWithin()
      ensures var put := PutSegs(old(segs), e, Low);
        List() == Order(put) && segs == Maintained(old(heap), put, highCap, lowCap)
    {
      hide LinkAfter, Linked, Total, Maintained, SameButList, PoolCapacity, Segmented, Pooled;
      OpenSegmented(heap, segs, View());
      PooledLinked(heap, segs, View());
      PutPlace(heap, segs, Low);
      PutKeepsPooled(heap, segs, View(), e, Low);
      ghost var c := PutSegs(segs, e, Low);
      HookAfter(e, lowPri);
      heap := heap[e := PutFlags(heap[e], Low)];
      lowUsage := lowUsage + heap[e].charge;
      segs := c;
      ghost var mid := heap;
      SameAt(old(heap), mid, e);
      MaintainPoolSize();
      PooledLinked(heap, segs, View());
      lowPri := e;
      TailAppend(old(segs).bot, old(segs).low, e);
      SameTrans(old(heap), mid, heap);
      SameAt(mid, heap, e);
      MaintainedSame(old(heap), mid, c, highCap, lowCap);
      TotalSame(mid, heap, Order(c));
      lruUsage := lruUsage + heap[e].charge;
      OpenSegmented(heap, segs, View());
    }

    method InsertBottom(e: nat)
      requires CapsOk() && Segmented(heap, segs, View()) && 0 < e < |heap| && e !in List()
      modifies this`heap, this`lowPri, this`bottomPri, this`lruUsage, this`segs
      ensures Segmented(heap, segs, View()) && SameButList(old(heap), heap)
      ensures segs == PutSegs(old(segs), e, Bottom)
    {
      hide LinkAfter, Linked, Total, SameButList, PoolCapacity, Segmented, Pooled;
      OpenSegmented(heap, segs, View());
      PooledLinked(heap, segs, View());
      PutPlace(heap, segs, Bottom);
      PutKeepsPooled(heap, segs, View(), e, Bottom);
      PointersMeet(heap, segs);
      ghost var c := PutSegs(segs, e, Bottom);
      HookAfter(e, bottomPri);
      heap := heap[e := PutFlags(heap[e], Bottom)];
      SameAt(old(heap), heap, e);
      PooledLinked(heap, c, PutPools(View(), e, heap[e].charge, Bottom));
      if bottomPri == lowPri { lowPri := e; }
      bottomPri := e;
      segs := c;
      TailAppend(old(segs).bot, old(segs).low, e);
      lruUsage := lruUsage + heap[e].charge;
      OpenSegmented(heap, segs, View());
    }

    /** The link assignments that the three branches of LRU_Insert share. */
    method HookAfter(e: nat, p: nat)
      requires e < |heap| && p < |heap| && 0 <= heap[p].next < |heap|
      modifies this`heap
      ensures heap == LinkAfter(old(heap), e, p)
    {
      var n := heap[p].next;
      heap := heap[e := heap[e].(next := n, prev := p)];
      heap := heap[p := heap[p].(next := e)];
      heap := heap[n := heap[n].(prev := e)];
    }

    // ---------------------------------------------------------------- eviction and disposal

    /** An unreferenced entry leaves list, table and usage, and is doomed. */
    method Detach(e: nat, ghost doomed: seq<nat>) returns (ghost i: nat)
      requires Inv(doomed) && e in List()
      modifies this`heap, this`table, this`usage, this`segs
      modifies this`lowPri, this`bottomPri, this`highUsage, this`lowUsage, this`lruUsage
      ensures i < |old(List())| && old(List())[i] == e && Inv(doomed + [e]) && List() == Cut(old(List()), i)
      ensures 0 < e < |old(heap)| == |heap| && Others(old(heap), heap, [e])
      ensures Became(old(heap)[e].(inCache := false), heap[e])
      ensures usage == old(usage) - old(heap)[e].charge && table == old(table) - {old(heap)[e].key}
      ensures highUsage <= old(highUsage) && lowUsage <= old(lowUsage) && segs == Without(old(segs), e)
    {
      hide Segmented, Core, SameButList, Order, Others, CutSegs, Without;
      ListIds(heap, segs, View());
      i := LRU_Remove(e);
      ghost var mid := heap;
      SameAt(old(heap), mid, e);
      CoreSame(old(heap), mid, table, old(List()), doomed, usage);
      CoreDrop(mid, table, old(List()), doomed, usage, i);
      table := table - {heap[e].key};
      heap := heap[e := heap[e].(inCache := false)];
      usage := usage - heap[e].charge;
      EditSegmented(mid, segs, View(), e, heap[e]);
      OthersSame(old(heap), mid);
      OthersEdit(mid, e, heap[e]);
      OthersThen(old(heap), mid, heap, [], [e]);
      assert [] + [e] == [e];
    }

    method EvictOldest(ghost doomed: seq<nat>) returns (e: nat)
      requires Inv(doomed) && List() != []
      modifies this`heap, this`table, this`usage, this`segs
      modifies this`lowPri, this`bottomPri, this`highUsage, this`lowUsage, this`lruUsage
      ensures e == old(List())[0] && Inv(doomed + [e]) && List() == old(List())[1..]
      ensures Others(old(heap), heap, [e]) && |heap| == |old(heap)|
      ensures e < |old(heap)| && usage == old(usage) - old(heap)[e].charge && Within(table, old(table))
      ensures highUsage <= old(highUsage) && lowUsage <= old(lowUsage) && segs == Without(old(segs), e)
    {
      hide Segmented, Core, Order, Others, Without;
      ListIds(heap, segs, View());
      e := heap[0].next;
      ghost var i := Detach(e, doomed);
      assert i == 0;
      CutFirst(old(List()));
    }

    /** Evicts the oldest entries until `charge` more fits or nothing is left, and not one entry more. */
    method EvictFromLRU(charge: nat) returns (deleted: seq<nat>)
      requires Inv([])
      modifies this`heap, this`table, this`usage, this`segs
      modifies this`lowPri, this`bottomPri, this`highUsage, this`lowUsage, this`lruUsage
      ensures Inv(deleted) && JustEnough(old(heap), old(List()), deleted, old(usage), charge, capacity)
      ensures List() == old(List())[|deleted|..] && usage == old(usage) - Total(old(heap), deleted)
      ensures deleted <= old(List()) && segs == DropOldest(old(segs), |deleted|)
      ensures usage + charge <= capacity || List() == []
      ensures Others(old(heap), heap, deleted) && |heap| == |old(heap)| && Within(table, old(table))
      ensures highUsage <= old(highUsage) && lowUsage <= old(lowUsage)
    {
      hide Segmented, Core, Order, Others, Total, PoolCapacity, Without, DropOldest;
      deleted := [];
      DropNone(segs);
      OthersRefl(heap);
      TotalNone(heap);
      ListIds(heap, segs, View());
      while usage + charge > capacity && heap[0].next != 0
        invariant Inv(deleted) && deleted <= old(List()) && List() == old(List())[|deleted|..]
        invariant usage == old(usage) - Total(old(heap), deleted) && |heap| == |old(heap)| > 0
        invariant heap[0].next == if List() == [] then 0 else List()[0]
        invariant forall j: nat :: j < |deleted| ==> old(usage) - Total(old(heap), deleted[..j]) + charge > capacity
        invariant Others(old(heap), heap, deleted) && highUsage <= old(highUsage) && lowUsage <= old(lowUsage)
        invariant Within(table, old(table)) && segs == DropOldest(old(segs), |deleted|)
        decreases |List()|
      {
        ghost var mid, before := heap, deleted;
        var e := EvictOldest(deleted);
        deleted := deleted + [e];
        DropOneMore(old(segs), |before|);
        OthersThen(old(heap), mid, heap, before, [e]);
        EvictedCharge(old(heap), mid, old(List()), before, e);
        ListIds(heap, segs, View());
        assert deleted[..|before|] == before;
        assert forall j: nat :: j < |before| ==> deleted[..j] == before[..j];
      }
    }

    /** Every evicted object is disposed of, by the eviction callback or by the deleter. */
    method NotifyEvicted(deleted: seq<nat>)
      requires Inv(deleted)
      modifies this`heap
      ensures Inv([]) && AllDisposed(old(heap), heap, deleted) && AllDead(heap, deleted)
    {
      hide Segmented, Core, Order, AllDisposed;
      CoreDoomed(heap, table, List(), deleted, usage);
      DisposedNone(heap);
      assert deleted[..0] == [] && deleted[0..] == deleted;
      for n := 0 to |deleted|
        invariant Inv(deleted[n..]) && AllDisposed(old(heap), heap, deleted[..n]) && |heap| == |old(heap)|
      {
        var x := deleted[n];
        assert deleted[n..][1..] == deleted[n + 1..] && deleted[n..][0] == x;
        CoreDispose(heap, table, List(), deleted[n..], usage);
        DisposeOne(old(heap), heap, deleted, n);
        EditSegmented(heap, segs, View(), x, Disposed(heap[x]));
        heap := heap[x := Disposed(heap[x])];
      }
      assert deleted[..|deleted|] == deleted && deleted[|deleted|..] == [];
      StillDead(old(heap), heap, deleted);
    }

    /** Keeps the pools within their limits only if the new limits allow it: MaintainPoolSize is not called. */
    method SetCapacity(c: nat) returns (ghost gone: seq<nat>)
      requires Inv([])
      modifies this
      ensures JustEnough(old(heap), old(List()), gone, old(usage), 0, c) && AllDead(heap, gone)
      ensures Others(old(heap), heap, gone) && |heap| == |old(heap)| && segs == DropOldest(old(segs), |gone|)
      ensures Valid() && capacity == c && strict == old(strict) && usage <= old(usage)
      ensures highRatio == old(highRatio) && lowRatio == old(lowRatio)
      ensures highCap == PoolCapacity(c, highRatio) && lowCap == PoolCapacity(c, lowRatio)
      ensures old(highUsage) as real <= highCap && old(lowUsage) as real <= lowCap ==> PoolsWithin()
      ensures c >= old(capacity) && old(PoolsWithin()) ==> PoolsWithin()
      ensures usage > c ==> List() == []
    {
      hide Segmented, Core, Order, PoolCapacity, Total, Others, JustEnough, AllDead, AllDisposed;
      if c >= capacity {
        PoolCapacityGrows(capacity, c, highRatio);
        PoolCapacityGrows(capacity, c, lowRatio);
      }
      capacity := c;
      highCap := PoolCapacity(c, highRatio);
      lowCap := PoolCapacity(c, lowRatio);
      var deleted := EvictFromLRU(0);
      gone := deleted;
      ghost var mid := heap;
      TotalNonNegative(old(heap), deleted);
      NotifyEvicted(deleted);
      DisposedOthers(mid, heap, deleted);
      OthersThen(old(heap), mid, heap, deleted, deleted);
      OthersSubset(old(heap), heap, deleted + deleted, deleted);
    }

    method SetStrictCapacityLimit(on: bool)
      requires Valid()
      modifies this`strict
      ensures Valid() && strict == on
    {
      hide Segmented, Core, Order, PoolCapacity;
      strict := on;
    }

    method SetHighPriorityPoolRatio(ratio: real)
      requires Valid() && ratio >= 0.0
      modifies this`heap, this`lowPri, this`bottomPri, this`highUsage, this`lowUsage, this`segs
      modifies this`highRatio, this`highCap
      ensures Valid() && PoolsWithin() && highRatio == ratio && List() == old(List()) && SameButList(old(heap), heap)
      ensures segs == Maintained(old(heap), old(segs), highCap, lowCap)
    {
      hide Segmented, Core, Order, PoolCapacity, Maintained;
      highRatio := ratio;
      highCap := PoolCapacity(capacity, ratio);
      Rebalance();
    }

    method SetLowPriorityPoolRatio(ratio: real)
      requires Valid() && ratio >= 0.0
      modifies this`heap, this`lowPri, this`bottomPri, this`highUsage, this`lowUsage, this`segs
      modifies this`lowRatio, this`lowCap
      ensures Valid() && PoolsWithin() && lowRatio == ratio && List() == old(List()) && SameButList(old(heap), heap)
      ensures segs == Maintained(old(heap), old(segs), highCap, lowCap)
    {
      hide Segmented, Core, Order, PoolCapacity, Maintained;
      lowRatio := ratio;
      lowCap := PoolCapacity(capacity, ratio);
      Rebalance();
    }

    /** MaintainPoolSize in a state that satisfies the list's invariant. */
    method Rebalance()
      requires Valid()
      modifies this`heap, this`lowPri, this`bottomPri, this`highUsage, this`lowUsage, this`segs
      ensures Valid() && PoolsWithin() && List() == old(List())
      ensures segs == Maintained(old(heap), old(segs), highCap, lowCap) && SameButList(old(heap), heap)
    {
      hide Segmented, Core, Order, PoolCapacity, Pooled, SameButList, Total, Maintained;
      OpenSegmented(heap, segs, View());
      MaintainPoolSize();
      OpenSegmented(heap, segs, View());
      CoreSame(old(heap), heap, table, List(), [], usage);
      TotalSame(old(heap), heap, List());
    }

    // ---------------------------------------------------------------- lookups and references

    /** Finds what the table holds for the key, takes it off the list and references it. */
    method Lookup(key: Key) returns (e: nat)
      requires Valid()
      modifies this`heap, this`lowPri, this`bottomPri, this`highUsage, this`lowUsage, this`lruUsage, this`segs
      ensures Valid() && (old(PoolsWithin()) ==> PoolsWithin()) && (old(HighWithin()) ==> HighWithin())
      ensures key !in table ==> e == 0 && heap == old(heap)
      ensures key in table ==> e == table[key] < |heap| == |old(heap)|
      ensures key in table ==> Became(old(heap)[e].(refs := old(heap)[e].refs + 1, hit := true), heap[e])
      ensures Others(old(heap), heap, [e]) && |heap| == |old(heap)| && segs == Without(old(segs), e)
    {
      hide Segmented, Core, Order, Others, PoolCapacity, Without;
      e := 0;
      NotThere(segs, 0);
      OthersRefl(heap);
      OthersMore(heap, heap, 0);
      ListIds(heap, segs, View());
      if key in table {
        InTable(heap, table, List(), [], usage, key);
        e := table[key];
        Pin(e);
      }
    }

    /** One more reference to an entry of the table, which leaves the list with its first. */
    method Pin(e: nat)
      requires Valid() && 0 < e < |heap| && heap[e].inCache
      modifies this`heap, this`lowPri, this`bottomPri, this`highUsage, this`lowUsage, this`lruUsage, this`segs
      ensures Valid() && (old(PoolsWithin()) ==> PoolsWithin()) && (old(HighWithin()) ==> HighWithin())
      ensures |heap| == |old(heap)| && Others(old(heap), heap, [e]) && segs == Without(old(segs), e)
      ensures Became(old(heap)[e].(refs := old(heap)[e].refs + 1, hit := true), heap[e])
    {
      hide Segmented, Core, SameButList, Order, Others, CutSegs, PoolCapacity, Without;
      ListIds(heap, segs, View());
      InCore(heap, table, List(), [], usage, e);
      if heap[e].refs == 0 {
        ghost var i := LRU_Remove(e);
        SameAt(old(heap), heap, e);
        CoreSame(old(heap), heap, table, old(List()), [], usage);
        CorePin(heap, table, old(List()), [], usage, i);
      } else {
        NotThere(segs, e);
        SameRefl(heap);
        CoreRefs(heap, table, List(), [], usage, e, heap[e].refs + 1, true);
      }
      ghost var mid := heap;
      OthersSame(old(heap), mid);
      heap := heap[e := heap[e].(refs := heap[e].refs + 1, hit := true)];
      EditSegmented(mid, segs, View(), e, heap[e]);
      OthersEdit(mid, e, heap[e]);
      OthersThen(old(heap), mid, heap, [], [e]);
      assert [] + [e] == [e];
    }

    method Ref(e: nat)
      requires Valid() && 0 < e < |heap| && heap[e].refs > 0
      modifies this`heap
      ensures Valid() && heap == old(heap)[e := old(heap)[e].(refs := old(heap)[e].refs + 1)]
    {
      hide Segmented, Core, Order, PoolCapacity;
      CoreRefs(heap, table, List(), [], usage, e, heap[e].refs + 1, heap[e].hit);
      EditSegmented(heap, segs, View(), e, heap[e].(refs := heap[e].refs + 1));
      heap := heap[e := heap[e].(refs := heap[e].refs + 1)];
    }

    /** Whether giving back e's last reference puts it on the list. */
    predicate GoesBack(e: nat, eraseIfLast: bool)
      requires e < |heap|
      reads this
    {
      heap[e].refs == 1 && heap[e].inCache && usage <= capacity && !eraseIfLast
    }

    /** An entry whose last reference is given back goes on the list if it is in the cache and the cache is not
        over capacity; otherwise it is freed. */
    method Release(e: nat, eraseIfLast: bool) returns (freed: bool)
      requires Valid() && 0 < e < |heap| && heap[e].refs > 0
      requires GoesBack(e, eraseIfLast) && Level(heap[e], highRatio, lowRatio).Low? ==> HighWithin()
      modifies this`heap, this`table, this`usage, this`segs
      modifies this`lowPri, this`bottomPri, this`highUsage, this`lowUsage, this`lruUsage
      ensures Valid() && (old(PoolsWithin()) ==> PoolsWithin())
      ensures freed <==> old(heap)[e].refs == 1 && !old(GoesBack(e, eraseIfLast))
      ensures |heap| == |old(heap)| && Others(old(heap), heap, [e])
      ensures Became(old(heap)[e].(refs := old(heap)[e].refs - 1, inCache := old(heap)[e].inCache && !freed,
                                   disposals := if freed then 1 else 0), heap[e])
      ensures usage == old(usage) - if freed then old(heap)[e].charge else 0
      ensures segs == if old(GoesBack(e, eraseIfLast)) then Landed(heap, old(segs), e, LimitsNow()) else old(segs)
      ensures old(GoesBack(e, eraseIfLast)) ==> Belongs(old(heap)[e], highRatio, lowRatio, old(segs), e, List())
    {
      hide Segmented, Core, Order, PoolCapacity, Others, Landed;
      var x := heap[e];
      InCore(heap, table, List(), [], usage, e);
      if x.refs > 1 {
        CoreRefs(heap, table, List(), [], usage, e, x.refs - 1, x.hit);
        EditSegmented(heap, segs, View(), e, x.(refs := x.refs - 1));
        heap := heap[e := x.(refs := x.refs - 1)];
        OthersEdit(old(heap), e, heap[e]);
        return false;
      }
      if x.inCache && usage <= capacity && !eraseIfLast {
        PutBack(e);
        return false;
      }
      FreeLast(e);
      return true;
    }

    /** The branch of Release that frees the entry, taking it out of the table first if it is there. */
    method FreeLast(e: nat)
      requires Valid() && 0 < e < |heap| && heap[e].refs == 1
      modifies this`heap, this`table, this`usage
      ensures Valid() && usage == old(usage) - old(heap)[e].charge
      ensures |heap| == |old(heap)| && Others(old(heap), heap, [e])
      ensures Became(old(heap)[e].(refs := 0, inCache := false, disposals := 1), heap[e])
    {
      hide Segmented, Core, Order, PoolCapacity, Others;
      var x := heap[e];
      InCore(heap, table, List(), [], usage, e);
      CoreFree(heap, table, List(), [], usage, e);
      var y := x.(refs := 0, inCache := false);
      EditSegmented(heap, segs, View(), e, y);
      if x.inCache { table := table - {x.key}; }
      heap := heap[e := y];
      usage := usage - x.charge;
      ghost var mid := heap;
      assert [] + [e] == [e];
      NotifyEvicted([e]);
      OthersEdit(old(heap), e, mid[e]);
      DisposedOthers(mid, heap, [e]);
      DisposedAt(mid, heap, [e], e);
      OthersThen(old(heap), mid, heap, [e], [e]);
      OthersTwice(old(heap), heap, e);
    }

    /** The branch of Release that puts the entry back on the list. */
    method PutBack(e: nat)
      requires Valid() && 0 < e < |heap| && heap[e].refs == 1 && heap[e].inCache && usage <= capacity
      requires Level(heap[e], highRatio, lowRatio).Low? ==> HighWithin()
      modifies this`heap, this`lowPri, this`bottomPri, this`highUsage, this`lowUsage, this`lruUsage, this`segs
      ensures Valid() && (old(PoolsWithin()) ==> PoolsWithin())
      ensures |heap| == |old(heap)| && Others(old(heap), heap, [e]) && Became(old(heap)[e].(refs := 0), heap[e])
      ensures segs == Landed(heap, old(segs), e, LimitsNow())
      ensures Belongs(old(heap)[e], highRatio, lowRatio, old(segs), e, List())
    {
      hide Segmented, Core, Order, PoolCapacity, Others, SameButList, PutSegs, Maintained, Landed, SameWeights;
      ghost var order := List();
      InCore(heap, table, order, [], usage, e);
      CoreUnpin(heap, table, order, [], usage, e);
      EditSegmented(heap, segs, View(), e, heap[e].(refs := 0));
      heap := heap[e := heap[e].(refs := 0)];
      ghost var mid := heap;
      OthersEdit(old(heap), e, heap[e]);
      LRU_Insert(e);
      SameAt(mid, heap, e);
      OthersSame(mid, heap);
      OthersThen(old(heap), mid, heap, [e], []);
      assert [e] + [] == [e];
      ListWeights(mid, heap);
      LandedSame(mid, heap, old(segs), e, LimitsNow());
      PutMembers(old(segs), e, Level(mid[e], highRatio, lowRatio));
      CoreSame(mid, heap, table, order + [e], [], usage);
      CoreReorder(heap, table, order + [e], List(), [], usage);
    }

    /** Takes the entry for the key out of the table; it is freed at once if nobody references it. */
    method Erase(key: Key)
      requires Valid()
      modifies this`heap, this`table, this`usage, this`segs
      modifies this`lowPri, this`bottomPri, this`highUsage, this`lowUsage, this`lruUsage
      ensures Valid() && (old(PoolsWithin()) ==> PoolsWithin()) && (old(HighWithin()) ==> HighWithin())
      ensures table == old(table) - {key} && |heap| == |old(heap)| && usage <= old(usage)
      ensures key !in old(table) ==> heap == old(heap) && segs == old(segs)
      ensures key in old(table) ==> segs == Without(old(segs), old(table)[key])
      ensures key in old(table) ==> old(table)[key] < |heap| && Others(old(heap), heap, [old(table)[key]])
      ensures key in old(table) ==> var x := old(heap)[old(table)[key]];
        Became(x.(inCache := false, disposals := if x.refs == 0 then 1 else 0), heap[old(table)[key]])
    {
      hide Segmented, Core, Order, PoolCapacity, Others, Without;
      if key in table {
        InTable(heap, table, List(), [], usage, key);
        var e := table[key];
        InCore(heap, table, List(), [], usage, e);
        var doomed := Uncache(e, []);
        assert [] + doomed == doomed;
        ghost var mid := heap;
        NotifyEvicted(doomed);
        DisposedOthers(mid, heap, doomed);
        DisposedAt(mid, heap, doomed, e);
        OthersThen(old(heap), mid, heap, [e], doomed);
        OthersWithin(old(heap), heap, [e] + doomed, e);
      }
    }

    /** An entry leaves the table (Erase, or Insert overwriting it); it is doomed if nobody references it. */
    method Uncache(e: nat, ghost doomed: seq<nat>) returns (more: seq<nat>)
      requires Inv(doomed) && 0 < e < |heap| && heap[e].inCache
      modifies this`heap, this`table, this`usage, this`segs
      modifies this`lowPri, this`bottomPri, this`highUsage, this`lowUsage, this`lruUsage
      ensures Inv(doomed + more) && more == if old(heap)[e].refs == 0 then [e] else []
      ensures |heap| == |old(heap)| && Others(old(heap), heap, [e]) && Became(old(heap)[e].(inCache := false), heap[e])
      ensures table == old(table) - {old(heap)[e].key} && usage <= old(usage)
      ensures highUsage <= old(highUsage) && lowUsage <= old(lowUsage) && segs == Without(old(segs), e)
      ensures old(List()) == [] ==> List() == []
    {
      hide Segmented, Core, Order, Others, PoolCapacity, Without;
      NotThere(segs, e);
      InCore(heap, table, List(), doomed, usage, e);
      if heap[e].refs == 0 {
        ghost var i := Detach(e, doomed);
        return [e];
      }
      CoreHide(heap, table, List(), doomed, usage, e);
      EditSegmented(heap, segs, View(), e, heap[e].(inCache := false));
      OthersEdit(heap, e, heap[e].(inCache := false));
      table := table - {heap[e].key};
      heap := heap[e := heap[e].(inCache := false)];
      assert doomed + [] == doomed;
      return [];
    }

    /** Frees every entry that nobody references. */
    method EraseUnRefEntries()
      requires Valid()
      modifies this`heap, this`table, this`usage, this`segs
      modifies this`lowPri, this`bottomPri, this`highUsage, this`lowUsage, this`lruUsage
      ensures Valid() && List() == [] && usage <= old(usage) && (old(PoolsWithin()) ==> PoolsWithin())
      ensures |heap| == |old(heap)| && Others(old(heap), heap, old(List())) && AllDead(heap, old(List()))
    {
      hide Segmented, Core, Order, Others, PoolCapacity, AllDisposed, AllDead;
      var deleted := TakeAll();
      ghost var mid := heap;
      NotifyEvicted(deleted);
      DisposedOthers(mid, heap, deleted);
      OthersThen(old(heap), mid, heap, deleted, deleted);
      OthersSubset(old(heap), heap, deleted + deleted, old(List()));
    }

    /** Takes every entry off the list and out of the table. */
    method TakeAll() returns (deleted: seq<nat>)
      requires Valid()
      modifies this`heap, this`table, this`usage, this`segs
      modifies this`lowPri, this`bottomPri, this`highUsage, this`lowUsage, this`lruUsage
      ensures Inv(deleted) && deleted == old(List()) && List() == [] && usage <= old(usage)
      ensures |heap| == |old(heap)| && Others(old(heap), heap, deleted)
      ensures highUsage <= old(highUsage) && lowUsage <= old(lowUsage)
    {
      hide Segmented, Core, Order, Others, PoolCapacity, Within, Without;
      deleted := [];
      OthersRefl(heap);
      ListIds(heap, segs, View());
      while heap[0].next != 0
        invariant Inv(deleted) && deleted <= old(List()) && List() == old(List())[|deleted|..]
        invariant |heap| == |old(heap)| > 0
        invariant heap[0].next == (if List() == [] then 0 else List()[0]) && usage <= old(usage)
        invariant Others(old(heap), heap, deleted) && highUsage <= old(highUsage) && lowUsage <= old(lowUsage)
        decreases |List()|
      {
        ghost var mid, before := heap, deleted;
        var e := EvictOldest(deleted);
        deleted := deleted + [e];
        OthersThen(old(heap), mid, heap, before, [e]);
        ListIds(heap, segs, View());
      }
      assert deleted == old(List());
    }

    // ---------------------------------------------------------------- insertion

    /** The handle CreateHandle makes. */
    function NewHandle(key: Key, charge: nat, pri: Priority, inCache: bool, refs: nat): Handle {
      Handle(key, charge, pri, refs, inCache, false, false, false, NULL, NULL, 0, false)
    }

    /** A new handle that does not go into the cache. */
    method AddLoose(h: Handle, ghost doomed: seq<nat>) returns (e: nat)
      requires Inv(doomed) && !h.inCache && h.next == NULL && h.prev == NULL && (FateOk(h) || Doomed(h))
      modifies this`heap, this`usage
      ensures e == |old(heap)| > 0 && heap == old(heap) + [h]
      ensures usage == old(usage) + if h.refs > 0 then h.charge else 0
      ensures Inv(if FateOk(h) then doomed else doomed + [e])
    {
      hide Segmented, Core, Order, PoolCapacity;
      ListIds(heap, segs, View());
      CoreAddLoose(heap, table, List(), doomed, usage, h);
      GrowSegmented(heap, segs, View(), h);
      e := |heap|;
      heap := heap + [h];
      if h.refs > 0 { usage := usage + h.charge; }
    }

    /** Charges a handle that is never in the table; without strict limit, or if there is room, it always works. */
    method CreateStandalone(key: Key, charge: nat, allowUncharged: bool)
      returns (e: nat, ok: bool, ghost gone: seq<nat>)
      requires Valid()
      modifies this`heap, this`table, this`usage, this`segs
      modifies this`lowPri, this`bottomPri, this`highUsage, this`lowUsage, this`lruUsage
      ensures Valid() && (old(PoolsWithin()) ==> PoolsWithin())
      ensures JustEnough(old(heap), old(List()), gone, old(usage), charge, capacity) && AllDead(heap, gone)
      ensures Others(old(heap), heap, gone) && segs == DropOldest(old(segs), |gone|)
      ensures e == |old(heap)| && |heap| == e + 1 && !heap[e].inCache
      ensures var room := old(usage) - Total(old(heap), gone) + charge <= capacity;
        && (ok <==> !strict || room || allowUncharged)
        && (if ok then heap[e].refs == 1 && heap[e].charge == (if strict && !room then 0 else charge)
            else heap[e].rejected)
      ensures strict && old(usage) <= capacity ==> usage <= capacity
    {
      hide Segmented, Core, Order, Others, PoolCapacity, Total, AllDisposed, JustEnough, AllDead, DropOldest, Within;
      var deleted := EvictFromLRU(charge);
      gone := deleted;
      ghost var first := heap;
      CoreDoomed(heap, table, List(), deleted, usage);
      var h := NewHandle(key, charge, Bottom, false, 1);
      ok := true;
      if strict && usage + charge > capacity {
        ok := allowUncharged;
        h := if ok then h.(charge := 0) else h.(refs := 0, rejected := true);
      }
      e := AddLoose(h, deleted);
      ghost var mid := heap;
      OthersGrow(first, h);
      TotalNonNegative(old(heap), deleted);
      NotifyEvicted(deleted);
      assert deleted + [] == deleted;
      Finished(old(heap), first, mid, heap, deleted, [], [], [], e);
    }

    /** The new entry goes into the table, and on the list unless the caller gets a reference. */
    method AddCached(key: Key, charge: nat, pri: Priority, wantsHandle: bool, ghost doomed: seq<nat>) returns (e: nat)
      requires Inv(doomed) && key !in table
      requires !wantsHandle && Level(NewHandle(key, charge, pri, true, 0), highRatio, lowRatio).Low? ==> HighWithin()
      modifies this`heap, this`table, this`usage, this`segs
      modifies this`lowPri, this`bottomPri, this`highUsage, this`lowUsage, this`lruUsage
      ensures Inv(doomed) && (old(PoolsWithin()) ==> PoolsWithin())
      ensures e == |old(heap)| > 0 && |heap| == e + 1 && Others(old(heap), heap, [])
      ensures Became(NewHandle(key, charge, pri, true, if wantsHandle then 1 else 0), heap[e])
      ensures table == old(table)[key := e] && usage == old(usage) + charge
      ensures segs == if wantsHandle then old(segs) else Landed(heap, old(segs), e, LimitsNow())
      ensures !wantsHandle ==> Belongs(heap[e], highRatio, lowRatio, old(segs), e, List())
    {
      hide Segmented, Core, Order, PoolCapacity, Others, SameButList, PutSegs, Maintained, Landed, SameWeights;
      ghost var order := List();
      var h := NewHandle(key, charge, pri, true, if wantsHandle then 1 else 0);
      ListIds(heap, segs, View());
      CoreAddCached(heap, table, order, doomed, usage, h);
      GrowSegmented(heap, segs, View(), h);
      e := |heap|;
      heap := heap + [h];
      table := table[key := e];
      usage := usage + charge;
      ghost var mid := heap;
      OthersGrow(old(heap), h);
      if !wantsHandle {
        assert e !in order;
        LRU_Insert(e);
        SameAt(mid, heap, e);
        OthersSame(mid, heap);
        OthersThen(old(heap), mid, heap, [], []);
        OthersSubset(old(heap), heap, [] + [], []);
        ListWeights(mid, heap);
        LandedSame(mid, heap, old(segs), e, LimitsNow());
        PutMembers(old(segs), e, Level(mid[e], highRatio, lowRatio));
        CoreSame(mid, heap, table, order + [e], doomed, usage);
        CoreReorder(heap, table, order + [e], List(), doomed, usage);
      }
    }

    /** The part of InsertItem that puts the entry in, replacing the one for the same key. */
    method Accept(key: Key, charge: nat, pri: Priority, wantsHandle: bool, ghost doomed: seq<nat>)
      returns (st: Status, e: nat, more: seq<nat>)
      requires Inv(doomed)
      requires !wantsHandle && Level(NewHandle(key, charge, pri, true, 0), highRatio, lowRatio).Low? ==> HighWithin()
      modifies this`heap, this`table, this`usage, this`segs
      modifies this`lowPri, this`bottomPri, this`highUsage, this`lowUsage, this`lruUsage
      ensures Inv(doomed + more) && (old(PoolsWithin()) ==> PoolsWithin())
      ensures st == if key in old(table) then OkOverwritten else Ok
      ensures e == |old(heap)| > 0 && |heap| == e + 1 && table == old(table)[key := e]
      ensures Became(NewHandle(key, charge, pri, true, if wantsHandle then 1 else 0), heap[e])
      ensures usage <= old(usage) + charge && (wantsHandle && old(List()) == [] ==> List() == [])
      ensures segs == AfterAccept(heap, old(segs), ForKey(old(table), key), e, wantsHandle, LimitsNow())
      ensures Others(old(heap), heap, ForKey(old(table), key)) && (more == [] || more == ForKey(old(table), key))
    {
      hide Segmented, Core, Order, Others, PoolCapacity, Without, Landed;
      OthersRefl(heap);
      if key in table {
        InTable(heap, table, List(), doomed, usage, key);
        st := OkOverwritten;
        more := Uncache(table[key], doomed);
      } else {
        st, more := Ok, [];
        assert doomed + [] == doomed;
      }
      ghost var mid := heap;
      e := AddCached(key, charge, pri, wantsHandle, doomed + more);
      OthersThen(old(heap), mid, heap, ForKey(old(table), key), []);
      OthersSubset(old(heap), heap, ForKey(old(table), key) + [], ForKey(old(table), key));
    }

    /** The part of InsertItem that turns the entry away: the handle is freed, and the object with it if the caller does
        not want a handle. */
    method Refuse(key: Key, charge: nat, pri: Priority, wantsHandle: bool, ghost doomed: seq<nat>)
      returns (st: Status, e: nat, more: seq<nat>)
      requires Inv(doomed)
      modifies this`heap, this`usage
      ensures Inv(doomed + more) && usage == old(usage)
      ensures st == (if wantsHandle then MemoryLimit else Ok) && more == if wantsHandle then [] else [e]
      ensures e == |old(heap)| > 0 && |heap| == e + 1 && Others(old(heap), heap, [])
      ensures heap[e] == NewHandle(key, charge, pri, false, 0).(rejected := wantsHandle)
    {
      hide Segmented, Core, Order, Others, PoolCapacity;
      if !wantsHandle {
        e := AddLoose(NewHandle(key, charge, pri, false, 0), doomed);
        st, more := Ok, [e];
      } else {
        e := AddLoose(NewHandle(key, charge, pri, false, 0).(rejected := true), doomed);
        st, more := MemoryLimit, [];
        assert doomed + [] == doomed;
      }
      OthersGrow(old(heap), heap[e]);
    }

    /** The part of InsertItem after the evictions: which way it goes. */
    method Decide(key: Key, charge: nat, pri: Priority, wantsHandle: bool, ghost doomed: seq<nat>)
      returns (st: Status, e: nat, more: seq<nat>)
      requires Inv(doomed) && (usage + charge <= capacity || List() == [])
      requires !wantsHandle && Level(NewHandle(key, charge, pri, true, 0), highRatio, lowRatio).Low? ==> HighWithin()
      modifies this`heap, this`table, this`usage, this`segs
      modifies this`lowPri, this`bottomPri, this`highUsage, this`lowUsage, this`lruUsage
      ensures Inv(doomed + more) && (old(PoolsWithin()) ==> PoolsWithin()) && (usage > capacity ==> List() == [])
      ensures e == |old(heap)| > 0 && |heap| == e + 1 && Others(old(heap), heap, ForKey(old(table), key))
      ensures forall i: nat :: i in more && i < e ==> i in ForKey(old(table), key)
      ensures st.MemoryLimit? <==> old(usage) + charge > capacity && strict && wantsHandle
      ensures st.OkOverwritten? <==> heap[e].inCache && key in old(table)
      ensures heap[e].inCache <==> old(usage) + charge <= capacity || (!strict && wantsHandle)
      ensures if heap[e].inCache then
                && table == old(table)[key := e] && e !in more && usage <= old(usage) + charge
                && Became(NewHandle(key, charge, pri, true, if wantsHandle then 1 else 0), heap[e])
                && segs == AfterAccept(heap, old(segs), ForKey(old(table), key), e, wantsHandle, LimitsNow())
              else
                && table == old(table) && more == (if wantsHandle then [] else [e]) && usage == old(usage)
                && heap[e] == NewHandle(key, charge, pri, false, 0).(rejected := wantsHandle) && segs == old(segs)
    {
      hide Segmented, Core, Order, Others, PoolCapacity, Level, AfterAccept;
      if usage + charge > capacity && (strict || !wantsHandle) {
        st, e, more := Refuse(key, charge, pri, wantsHandle, doomed);
        OthersSubset(old(heap), heap, [], ForKey(old(table), key));
      } else {
        ForKeyBelow(heap, table, List(), doomed, usage, key);
        st, e, more := Accept(key, charge, pri, wantsHandle, doomed);
      }
    }

    /** Evicts just enough for room; then, if there is room or it need not be found, inserts the entry or replaces the
        one for the key; otherwise fails if the caller wants a handle, and drops the entry as if it had been inserted
        and evicted at once if not.  No other handle changes.  The last clause says where on the list the entry is. */
    method Insert(key: Key, charge: nat, pri: Priority, wantsHandle: bool)
      returns (st: Status, e: nat, ghost gone: seq<nat>)
      requires Valid()
      requires !wantsHandle && Level(NewHandle(key, charge, pri, true, 0), highRatio, lowRatio).Low? ==> HighWithin()
      modifies this`heap, this`table, this`usage, this`segs
      modifies this`lowPri, this`bottomPri, this`highUsage, this`lowUsage, this`lruUsage
      ensures Valid() && (old(PoolsWithin()) ==> PoolsWithin())
      ensures JustEnough(old(heap), old(List()), gone, old(usage), charge, capacity) && AllDead(heap, gone)
      ensures Others(old(heap), heap, gone + ForKey(old(table), key))
      ensures e == |old(heap)| && |heap| == e + 1
      ensures var room := old(usage) - Total(old(heap), gone) + charge <= capacity;
        && (st.MemoryLimit? <==> !room && strict && wantsHandle)
        && (heap[e].inCache <==> room || (!strict && wantsHandle))
        && (st.OkOverwritten? <==> heap[e].inCache && key in old(table) && old(table)[key] !in gone)
      ensures heap[e].inCache ==> key in table && table[key] == e
      ensures heap[e].inCache ==> Became(NewHandle(key, charge, pri, true, if wantsHandle then 1 else 0), heap[e])
      ensures !heap[e].inCache ==>
        heap[e] == NewHandle(key, charge, pri, false, 0).(rejected := wantsHandle,
                                                          disposals := if wantsHandle then 0 else 1)
      ensures heap[e].key == key && heap[e].charge == charge && heap[e].pri == pri && !heap[e].hit
      ensures heap[e].refs == if heap[e].inCache && wantsHandle then 1 else 0
      ensures usage <= old(usage) + charge && (strict && old(usage) <= capacity ==> usage <= capacity)
      ensures var left, ids := DropOldest(old(segs), |gone|), ForKey(old(table), key);
        && segs == (if heap[e].inCache then AfterAccept(heap, left, ids, e, wantsHandle, LimitsNow()) else left)
        && (heap[e].inCache ==> Arrives(heap[e], Cleared(left, ids), e, wantsHandle, LimitsNow(), List()))
    {
      hide Segmented, Core, Order, Others, PoolCapacity, Total, AllDisposed, JustEnough, Level, AllDead, AfterAccept,
        SameWeights, DropOldest, Within, Arrives, Cleared, Became;
      ListIds(heap, segs, View());
      var deleted := EvictFromLRU(charge);
      gone := deleted;
      ghost var first, ids, left := heap, ForKey(table, key), segs;
      TotalNonNegative(old(heap), deleted);
      KeyAfterEviction(old(heap), first, old(table), table, old(List()), left, deleted, old(usage), usage, key);
      var more;
      st, e, more := Decide(key, charge, pri, wantsHandle, deleted);
      deleted := deleted + more;
      ghost var mid := heap;
      CoreDoomed(heap, table, List(), deleted, usage);
      NotifyEvicted(deleted);
      Finished(old(heap), first, mid, heap, gone, more, ids, ForKey(old(table), key), e);
      AfterAcceptSame(mid, heap, left, ids, e, wantsHandle, LimitsNow());
      AfterAcceptIds(heap, left, ids, ForKey(old(table), key), e, wantsHandle, LimitsNow());
      AfterAcceptArrives(heap, left, ForKey(old(table), key), e, wantsHandle, LimitsNow());
      NewFields(key, charge, pri, wantsHandle, heap[e]);
    }

    lemma NewFields(key: Key, charge: nat, pri: Priority, wantsHandle: bool, x: Handle)
      requires x.inCache ==> Became(NewHandle(key, charge, pri, true, if wantsHandle then 1 else 0), x)
      requires !x.inCache ==>
        x == NewHandle(key, charge, pri, false, 0).(rejected := wantsHandle, disposals := if wantsHandle then 0 else 1)
      ensures x.key == key && x.charge == charge && x.pri == pri && !x.hit
      ensures x.refs == if x.inCache && wantsHandle then 1 else 0
    {
    }

    /** A use of an entry: it is looked up and given back.  If there is a high pool it is then the very last entry that
        room for any other would cost, whatever its priority. */
    method Use(key: Key) returns (e: nat)
      requires Valid() && PoolsWithin() && key in table && heap[table[key]].refs == 0 && usage <= capacity
      modifies this`heap, this`table, this`usage, this`segs
      modifies this`lowPri, this`bottomPri, this`highUsage, this`lowUsage, this`lruUsage
      ensures Valid() && e == old(table)[key] && key in table && table[key] == e
      ensures highRatio > 0.0 ==> List() == Order(Without(old(segs), e)) + [e]
      ensures highRatio > 0.0 ==> forall gone, charge: nat ::
        JustEnough(heap, List(), gone, usage, charge, capacity) && e in gone ==> gone == List()
    {
      hide Segmented, Core, Order, Others, PoolCapacity, Landed, Without, Total;
      InTable(heap, table, List(), [], usage, key);
      e := Lookup(key);
      var freed := Release(e, false);
      InCore(heap, table, List(), [], usage, e);
      ListIds(heap, segs, View());
      if highRatio > 0.0 {
        UsedIsLast(heap, segs, Without(old(segs), e), e);
        forall gone, charge: nat | JustEnough(heap, List(), gone, usage, charge, capacity) && e in gone
          ensures gone == List()
        {
          LastIsAll(List(), gone);
        }
      }
    }

    // ---------------------------------------------------------------- whole runs

    ghost function Now(): Shard
      reads this
    {
      Shard(heap, table, List(), capacity, strict, highRatio, lowRatio)
    }

    /** What every operation of a run keeps, and that it is this operation. */
    method Step(op: Op)
      requires Valid() && PoolsWithin() && Allowed(op, heap, capacity)
      modifies this
      ensures Valid() && PoolsWithin() && capacity >= old(capacity)
      ensures SettingsAfter(op, old(Now()), Now()) && Did(op, old(Now()), Now())
      ensures old(strict) && old(usage) <= old(capacity) ==> usage <= capacity
      ensures old(strict) && !op.DoSetStrict? ==> strict
    {
      hide Segmented, Core, Order, PoolCapacity, Did;
      match op
      case DoInsert(_, _, _, _) => Admit(op);
      case DoCreateStandalone(_, _, _) => Admit(op);
      case DoLookup(_) => Touch(op);
      case DoRelease(_, _) => Touch(op);
      case DoRef(_) => Touch(op);
      case DoErase(_) => Touch(op);
      case DoEraseUnRef => Touch(op);
      case _ => Set(op);
    }

    /** The operations that change settings. */
    method Set(op: Op)
      requires Valid() && PoolsWithin() && Allowed(op, heap, capacity)
      requires op.DoSetCapacity? || op.DoSetStrict? || op.DoSetHighRatio? || op.DoSetLowRatio?
      modifies this
      ensures Valid() && PoolsWithin() && capacity >= old(capacity) && usage <= old(usage)
      ensures SettingsAfter(op, old(Now()), Now()) && Did(op, old(Now()), Now())
    {
      hide Segmented, Core, Order, Others, PoolCapacity, Maintained, JustEnough, AllDead, DropOldest, Total;
      match op
      case DoSetCapacity(c) => var gone := SetCapacity(c);
      case DoSetStrict(on) => SetStrictCapacityLimit(on);
      case DoSetHighRatio(r) => SetHighPriorityPoolRatio(r);
      case DoSetLowRatio(r) => SetLowPriorityPoolRatio(r);
    }

    /** The operations that ask for room. */
    method Admit(op: Op)
      requires Valid() && PoolsWithin() && (op.DoInsert? || op.DoCreateStandalone?)
      modifies this`heap, this`table, this`usage, this`segs
      modifies this`lowPri, this`bottomPri, this`highUsage, this`lowUsage, this`lruUsage
      ensures Valid() && PoolsWithin() && Did(op, old(Now()), Now())
      ensures strict && old(usage) <= capacity ==> usage <= capacity
    {
      hide Segmented, Core, Order, Others, PoolCapacity, JustEnough, AllDead, Landed, Belongs, Without, DropOldest,
        AfterAccept, Arrives, Cleared, Total, Within, Level, Became;
      match op
      case DoInsert(key, charge, pri, wantsHandle) => var st, e, gone := Insert(key, charge, pri, wantsHandle);
      case DoCreateStandalone(key, charge, allowUncharged) =>
        var e, ok, gone := CreateStandalone(key, charge, allowUncharged);
    }

    /** The operations that do not ask for room. */
    method Touch(op: Op)
      requires Valid() && PoolsWithin() && Allowed(op, heap, capacity)
      requires op.DoLookup? || op.DoRelease? || op.DoRef? || op.DoErase? || op.DoEraseUnRef?
      modifies this`heap, this`table, this`usage, this`segs
      modifies this`lowPri, this`bottomPri, this`highUsage, this`lowUsage, this`lruUsage
      ensures Valid() && PoolsWithin() && usage <= old(usage) && Did(op, old(Now()), Now())
    {
      hide Segmented, Core, Order, Others, PoolCapacity, AllDead, Without, Landed, Belongs, Level;
      match op
      case DoLookup(key) => var e := Lookup(key);
      case DoRelease(e, eraseIfLast) => var freed := Release(e, eraseIfLast);
      case DoRef(e) => Ref(e);
      case DoErase(key) => Erase(key);
      case DoEraseUnRef => EraseUnRefEntries();
    }

    /** On every run the invariant and the pool limits hold after each operation; and once the strict limit is on
        with usage within the capacity, usage stays within it until the limit is switched. */
    method Run(ops: seq<Op>) returns (ghost trace: seq<Shard>)
      requires Valid() && PoolsWithin()
      modifies this
      ensures Valid() && PoolsWithin()
      ensures |trace| == |ops| + 1 && trace[0] == old(Now()) && trace[|ops|] == Now()
      ensures forall i: nat :: i < |ops| ==> Went(ops[i], trace[i], trace[i + 1])
      ensures old(strict) && old(usage) <= old(capacity) && (forall i :: 0 <= i < |ops| ==> !ops[i].DoSetStrict?) ==>
        strict && usage <= capacity
    {
      hide Segmented, Core, Order, PoolCapacity, Did, SettingsAfter, Allowed;
      trace := [Now()];
      for n := 0 to |ops|
        invariant Valid() && PoolsWithin()
        invariant |trace| == n + 1 && trace[0] == old(Now()) && trace[n] == Now()
        invariant forall i: nat :: i < n ==> Went(ops[i], trace[i], trace[i + 1])
        invariant old(strict) && old(usage) <= old(capacity) && (forall i :: 0 <= i < n ==> !ops[i].DoSetStrict?) ==>
          strict && usage <= capacity
      {
        if Allowed(ops[n], heap, capacity) { Step(ops[n]); }
        trace := trace + [Now()];
      }
    }
  }
}
