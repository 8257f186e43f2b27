/**
 The LRU list of a cache shard: a circular doubly linked list through a sentinel, cut into a bottom, a low and
 a high priority segment by two pointers.

 Handles are numbered and a pointer is a number: 0 is the sentinel lru_, NULL the null pointer, and `heap`
 holds what each handle's fields are.
 */
module LruList {
  import opened Sums

  type Key = string

  datatype Priority = High | Low | Bottom

  const NULL := -1

  /** disposals counts calls of the deleter, or of an eviction callback that took the object over; rejected says
      that the handle was freed by an Insert or CreateStandalone that failed, the object staying with the caller. */
  datatype Handle = Handle(key: Key, charge: nat, pri: Priority, refs: nat, inCache: bool, hit: bool,
                           inHigh: bool, inLow: bool, next: int, prev: int, disposals: nat, rejected: bool)

  // ---------------------------------------------------------------- links

  /** The list, oldest first. */
  datatype Segs = Segs(bot: seq<nat>, low: seq<nat>, high: seq<nat>)

  function Order(g: Segs): seq<nat> {
    g.bot + g.low + g.high
  }

  /** Position 0 is the sentinel, then come the entries. */
  function Pos(order: seq<nat>, i: nat): nat
    requires i <= |order|
  {
    if i == 0 then 0 else order[i - 1]
  }

  function Succ(order: seq<nat>, i: nat): (j: nat)
    requires i <= |order|
    ensures j <= |order|
  {
    if i == |order| then 0 else i + 1
  }

  ghost predicate Ids(heap: seq<Handle>, order: seq<nat>) {
    && |heap| > 0
    && (forall i :: 0 <= i < |order| ==> 0 < order[i] < |heap|)
    && (forall i, j :: 0 <= i < j < |order| ==> order[i] != order[j])
  }

  /** The links between position i and the next. */
  predicate LinkOk(heap: seq<Handle>, order: seq<nat>, i: nat)
    requires i <= |order|
  {
    var x, y := Pos(order, i), Pos(order, Succ(order, i));
    x < |heap| && y < |heap| && heap[x].next == y && heap[y].prev == x
  }

  ghost predicate Linked(heap: seq<Handle>, order: seq<nat>) {
    && Ids(heap, order)
    && (forall i: nat :: i <= |order| ==> LinkOk(heap, order, i))
    && (forall x: nat :: 0 < x < |heap| && x !in order ==> heap[x].next == NULL && heap[x].prev == NULL)
  }

  /** Equal handles, links aside. */
  ghost predicate SameButLinks(h: seq<Handle>, r: seq<Handle>) {
    && |r| == |h|
    && forall x: nat {:trigger r[x]} :: x < |h| ==> r[x] == h[x].(next := r[x].next, prev := r[x].prev)
  }

  /** e is unhooked: the assignments of LRU_Remove. */
  function Unlink(h: seq<Handle>, e: nat): seq<Handle>
    requires e < |h| && 0 <= h[e].next < |h| && 0 <= h[e].prev < |h|
  {
    var n, p := h[e].next, h[e].prev;
    var h1 := h[n := h[n].(prev := p)];
    var h2 := h1[p := h1[p].(next := n)];
    h2[e := h2[e].(next := NULL, prev := NULL)]
  }

  /** e is hooked in after p: the assignments of LRU_Insert. */
  function LinkAfter(h: seq<Handle>, e: nat, p: nat): seq<Handle>
    requires e < |h| && p < |h| && 0 <= h[p].next < |h|
  {
    var n := h[p].next;
    var h1 := h[e := h[e].(next := n, prev := p)];
    var h2 := h1[p := h1[p].(next := e)];
    h2[n := h2[n].(prev := e)]
  }

  function Cut(order: seq<nat>, i: nat): seq<nat>
    requires i < |order|
  {
    order[..i] + order[i + 1..]
  }

  function Put(order: seq<nat>, i: nat, e: nat): seq<nat>
    requires i <= |order|
  {
    order[..i] + [e] + order[i..]
  }

  lemma PosDistinct(heap: seq<Handle>, order: seq<nat>, i: nat, j: nat)
    requires Ids(heap, order) && i <= |order| && j <= |order|
    ensures Pos(order, i) == Pos(order, j) <==> i == j
    ensures Pos(order, i) < |heap|
  {
  }

  lemma Neighbours(heap: seq<Handle>, order: seq<nat>, i: nat)
    requires Linked(heap, order) && i < |order|
    ensures order[i] < |heap| && heap[order[i]].prev == Pos(order, i) < |heap|
    ensures heap[order[i]].next == Pos(order, Succ(order, i + 1)) < |heap|
  {
    assert LinkOk(heap, order, i) && LinkOk(heap, order, i + 1);
  }

  lemma NextIs(heap: seq<Handle>, order: seq<nat>, i: nat)
    requires Linked(heap, order) && i <= |order|
    ensures Pos(order, i) < |heap| && heap[Pos(order, i)].next == Pos(order, Succ(order, i)) < |heap|
    ensures i < |order| ==> 0 < order[i] < |heap|
  {
    assert LinkOk(heap, order, i);
  }

  lemma UnlinkFields(h: seq<Handle>, e: nat, x: nat)
    requires e < |h| && 0 <= h[e].next < |h| && 0 <= h[e].prev < |h| && h[e].next != e && h[e].prev != e && x < |h|
    ensures var n, p, r := h[e].next, h[e].prev, Unlink(h, e);
      && |r| == |h|
      && r[x] == h[x].(next := if x == e then NULL else if x == p then n else h[x].next,
                       prev := if x == e then NULL else if x == n then p else h[x].prev)
  {
  }

  /** Where position j of the shortened list was. */
  function Uncut(i: nat, j: nat): nat {
    if j <= i then j else j + 1
  }

  lemma LinkBetween(heap: seq<Handle>, order: seq<nat>, i: nat)
    requires Linked(heap, order) && i <= |order|
    ensures Ids(heap, order) && LinkOk(heap, order, i)
  {
  }

  lemma UnlinkAt(heap: seq<Handle>, order: seq<nat>, i: nat, j: nat)
    requires Linked(heap, order) && i < |order| && j < |order|
    requires 0 <= order[i] < |heap| && 0 <= heap[order[i]].next < |heap| && 0 <= heap[order[i]].prev < |heap|
    ensures LinkOk(Unlink(heap, order[i]), Cut(order, i), j)
  {
    hide Linked, Ids, Unlink;
    var cut, e := Cut(order, i), order[i];
    var a, b := Uncut(i, j), Uncut(i, Succ(cut, j));
    var x, y := Pos(order, a), Pos(order, b);
    assert Pos(cut, j) == x && Pos(cut, Succ(cut, j)) == y;
    Neighbours(heap, order, i);
    LinkBetween(heap, order, a);
    PosDistinct(heap, order, i, i + 1);
    PosDistinct(heap, order, Succ(order, i + 1), i + 1);
    PosDistinct(heap, order, a, i);
    PosDistinct(heap, order, a, i + 1);
    PosDistinct(heap, order, b, i + 1);
    PosDistinct(heap, order, b, Succ(order, i + 1));
    UnlinkFields(heap, e, x);
    UnlinkFields(heap, e, y);
  }

  lemma UnlinkOthers(heap: seq<Handle>, order: seq<nat>, i: nat, x: nat)
    requires Linked(heap, order) && i < |order| && 0 < x < |heap| && x !in Cut(order, i)
    requires 0 <= order[i] < |heap| && 0 <= heap[order[i]].next < |heap| && 0 <= heap[order[i]].prev < |heap|
    ensures Unlink(heap, order[i])[x].next == NULL && Unlink(heap, order[i])[x].prev == NULL
  {
    Neighbours(heap, order, i);
    PosDistinct(heap, order, i, i + 1);
    PosDistinct(heap, order, Succ(order, i + 1), i + 1);
    UnlinkFields(heap, order[i], x);
    if x != order[i] {
      CutMembers(order, i, x);
      assert x !in order;
    }
  }

  lemma CutMembers(order: seq<nat>, i: nat, x: nat)
    requires i < |order|
    ensures x in order <==> x in Cut(order, i) || x == order[i]
  {
    assert order == order[..i] + [order[i]] + order[i + 1..];
  }

  lemma CutSize(order: seq<nat>, i: nat)
    requires i < |order|
    ensures |Cut(order, i)| == |order| - 1
  {
  }

  lemma CutIds(heap: seq<Handle>, order: seq<nat>, i: nat)
    requires Ids(heap, order) && i < |order|
    ensures Ids(heap, Cut(order, i))
  {
  }

  lemma UnlinkKeepsLinked(heap: seq<Handle>, order: seq<nat>, i: nat)
    requires Linked(heap, order) && i < |order|
    requires 0 <= order[i] < |heap| && 0 <= heap[order[i]].next < |heap| && 0 <= heap[order[i]].prev < |heap|
    ensures Linked(Unlink(heap, order[i]), Cut(order, i)) && SameButLinks(heap, Unlink(heap, order[i]))
  {
    var r, cut := Unlink(heap, order[i]), Cut(order, i);
    hide Unlink, Cut, LinkOk;
    CutIds(heap, order, i);
    Neighbours(heap, order, i);
    PosDistinct(heap, order, i, i + 1);
    PosDistinct(heap, order, Succ(order, i + 1), i + 1);
    forall x: nat | x < |heap|
      ensures |r| == |heap| && r[x] == heap[x].(next := r[x].next, prev := r[x].prev)
    {
      UnlinkFields(heap, order[i], x);
    }
    assert |cut| == |order| - 1 by { CutSize(order, i); }
    forall j: nat | j <= |cut| ensures LinkOk(r, cut, j) { UnlinkAt(heap, order, i, j); }
    forall x: nat | 0 < x < |r| && x !in cut ensures r[x].next == NULL && r[x].prev == NULL {
      UnlinkOthers(heap, order, i, x);
    }
  }

  lemma LinkFields(h: seq<Handle>, e: nat, p: nat, x: nat)
    requires e < |h| && p < |h| && 0 <= h[p].next < |h| && h[p].next != e && p != e && x < |h|
    ensures var n, r := h[p].next, LinkAfter(h, e, p);
      && |r| == |h|
      && r[x] == h[x].(next := if x == e then n else if x == p then e else h[x].next,
                       prev := if x == e then p else if x == n then e else h[x].prev)
  {
  }

  lemma LinkAt(heap: seq<Handle>, order: seq<nat>, i: nat, e: nat, j: nat)
    requires Linked(heap, order) && i <= |order| && j <= |order| + 1 && 0 < e < |heap| && e !in order
    requires Pos(order, i) < |heap| && 0 <= heap[Pos(order, i)].next < |heap|
    ensures LinkOk(LinkAfter(heap, e, Pos(order, i)), Put(order, i, e), j)
  {
    var put, p := Put(order, i, e), Pos(order, i);
    assert LinkOk(heap, order, i);
    var n := Pos(order, Succ(order, i));
    assert n == heap[p].next && p != e && n != e;
    LinkFields(heap, e, p, e);
    if j == i {
      LinkFields(heap, e, p, p);
    } else if j == i + 1 {
      LinkFields(heap, e, p, n);
      assert Pos(put, Succ(put, j)) == n;
    } else {
      var a := if j <= i then j else j - 1;
      assert Pos(put, j) == Pos(order, a) && Pos(put, Succ(put, j)) == Pos(order, Succ(order, a));
      assert LinkOk(heap, order, a);
      PosDistinct(heap, order, a, i);
      PosDistinct(heap, order, Succ(order, a), Succ(order, i));
      LinkFields(heap, e, p, Pos(order, a));
      LinkFields(heap, e, p, Pos(order, Succ(order, a)));
    }
  }

  lemma PutIds(heap: seq<Handle>, order: seq<nat>, i: nat, e: nat)
    requires Ids(heap, order) && i <= |order| && 0 < e < |heap| && e !in order
    ensures |Put(order, i, e)| == |order| + 1 && Ids(heap, Put(order, i, e))
    ensures forall x: nat :: x in Put(order, i, e) <==> x in order || x == e
  {
    assert order == order[..i] + order[i..];
  }

  lemma SameIds(h: seq<Handle>, r: seq<Handle>, order: seq<nat>)
    requires Ids(h, order) && |r| == |h|
    ensures Ids(r, order)
  {
  }

  lemma LinkKeepsLinked(heap: seq<Handle>, order: seq<nat>, i: nat, e: nat)
    requires Linked(heap, order) && i <= |order| && 0 < e < |heap| && e !in order
    requires Pos(order, i) < |heap| && 0 <= heap[Pos(order, i)].next < |heap|
    ensures Linked(LinkAfter(heap, e, Pos(order, i)), Put(order, i, e))
    ensures SameButLinks(heap, LinkAfter(heap, e, Pos(order, i)))
  {
    hide LinkAfter, LinkOk, Put, Ids, Pos;
    var r, put, p := LinkAfter(heap, e, Pos(order, i)), Put(order, i, e), Pos(order, i);
    NextIs(heap, order, i);
    PutIds(heap, order, i, e);
    PosApart(heap, order, i, e);
    PosApart(heap, order, Succ(order, i), e);
    forall x: nat | x < |heap|
      ensures |r| == |heap| && r[x] == heap[x].(next := r[x].next, prev := r[x].prev)
      ensures x !in put && x > 0 ==> r[x].next == NULL && r[x].prev == NULL
    {
      LinkFields(heap, e, p, x);
      if x > 0 && x !in order {
        PosApart(heap, order, i, x);
        PosApart(heap, order, Succ(order, i), x);
      }
    }
    SameIds(heap, r, put);
    forall j: nat | j <= |put| ensures LinkOk(r, put, j) { LinkAt(heap, order, i, e, j); }
  }

  lemma PosApart(heap: seq<Handle>, order: seq<nat>, i: nat, e: nat)
    requires Linked(heap, order) && i <= |order| && 0 < e && e !in order
    ensures Pos(order, i) != e
  {
  }

  // ---------------------------------------------------------------- segments

  function Charges(heap: seq<Handle>, ids: seq<nat>): seq<int> {
    seq(|ids|, i requires 0 <= i < |ids| => if ids[i] < |heap| then heap[ids[i]].charge else 0)
  }

  function Total(heap: seq<Handle>, ids: seq<nat>): int {
    Sum(Charges(heap, ids))
  }

  lemma {:induction false} SumConcat(a: seq<int>, b: seq<int>)
    ensures Sum(a + b) == Sum(a) + Sum(b)
  {
    if b == [] {
      assert a + b == a;
    } else {
      assert (a + b)[..|a + b| - 1] == a + b[..|b| - 1];
      SumConcat(a, b[..|b| - 1]);
    }
  }

  lemma TotalConcat(heap: seq<Handle>, a: seq<nat>, b: seq<nat>)
    ensures Total(heap, a + b) == Total(heap, a) + Total(heap, b)
  {
    assert Charges(heap, a + b) == Charges(heap, a) + Charges(heap, b);
    SumConcat(Charges(heap, a), Charges(heap, b));
  }

  lemma TotalOne(heap: seq<Handle>, e: nat)
    requires e < |heap|
    ensures Total(heap, [e]) == heap[e].charge
  {
    assert Charges(heap, [e]) == [] + [heap[e].charge];
    SumAppend([], heap[e].charge);
  }

  lemma TotalNone(heap: seq<Handle>)
    ensures Total(heap, []) == 0
  {
  }

  lemma TotalNonNegative(heap: seq<Handle>, ids: seq<nat>)
    ensures Total(heap, ids) >= 0
  {
    SumNonNegative(Charges(heap, ids));
  }

  lemma TotalCut(heap: seq<Handle>, ids: seq<nat>, i: nat)
    requires i < |ids| && ids[i] < |heap|
    ensures Total(heap, Cut(ids, i)) == Total(heap, ids) - heap[ids[i]].charge
  {
    hide Total;
    assert ids == ids[..i] + ([ids[i]] + ids[i + 1..]);
    TotalConcat(heap, ids[..i], [ids[i]] + ids[i + 1..]);
    TotalConcat(heap, [ids[i]], ids[i + 1..]);
    TotalConcat(heap, ids[..i], ids[i + 1..]);
    TotalOne(heap, ids[i]);
  }

  /** Only fields of the list (links and pool flags) differ. */
  ghost predicate SameButList(h: seq<Handle>, r: seq<Handle>) {
    && |r| == |h|
    && forall x: nat {:trigger r[x]} :: x < |h| ==>
         r[x] == h[x].(next := r[x].next, prev := r[x].prev, inHigh := r[x].inHigh, inLow := r[x].inLow)
  }

  lemma TotalSame(h: seq<Handle>, r: seq<Handle>, ids: seq<nat>)
    requires SameButList(h, r)
    ensures Total(r, ids) == Total(h, ids)
  {
    assert Charges(r, ids) == Charges(h, ids);
  }

  function Tail(ids: seq<nat>): nat {
    if ids == [] then 0 else ids[|ids| - 1]
  }

  /** Each entry carries the flag of its segment. */
  predicate FlagOk(heap: seq<Handle>, ids: seq<nat>, inHigh: bool, inLow: bool) {
    forall i :: 0 <= i < |ids| ==> ids[i] < |heap| && heap[ids[i]].inHigh == inHigh && heap[ids[i]].inLow == inLow
  }

  datatype Pools = Pools(lowPri: nat, bottomPri: nat, highUsage: int, lowUsage: int, lruUsage: int)

  /** All of the list's invariant except where lowPri points. */
  ghost predicate Pooled(heap: seq<Handle>, g: Segs, p: Pools) {
    && Linked(heap, Order(g))
    && FlagOk(heap, g.bot, false, false) && FlagOk(heap, g.low, false, true) && FlagOk(heap, g.high, true, false)
    && p.bottomPri == Tail(g.bot)
    && p.highUsage == Total(heap, g.high) && p.lowUsage == Total(heap, g.low)
  }

  /** Bottom, low and high entries in this order, cut exactly at the two pointers; the pool usages are the sums
      over their segments. */
  ghost predicate Segmented(heap: seq<Handle>, g: Segs, p: Pools) {
    Pooled(heap, g, p) && p.lowPri == Tail(g.bot + g.low) && p.lruUsage == Total(heap, Order(g))
  }

  // ---------------------------------------------------------------- LRU_Remove on values

  function CutSegs(g: Segs, i: nat): (c: Segs)
    requires i < |Order(g)|
    ensures Order(c) == Cut(Order(g), i)
  {
    var a, b := |g.bot|, |g.bot| + |g.low|;
    if i < a then Segs(Cut(g.bot, i), g.low, g.high)
    else if i < b then Segs(g.bot, Cut(g.low, i - a), g.high)
    else Segs(g.bot, g.low, Cut(g.high, i - b))
  }

  /** The pointers and totals after LRU_Remove. */
  function RemovePools(heap: seq<Handle>, p: Pools, e: nat): Pools
    requires e < |heap| && heap[e].prev >= 0
  {
    var x := heap[e];
    Pools(if p.lowPri == e then x.prev else p.lowPri, if p.bottomPri == e then x.prev else p.bottomPri,
          if x.inHigh then p.highUsage - x.charge else p.highUsage,
          if !x.inHigh && x.inLow then p.lowUsage - x.charge else p.lowUsage,
          p.lruUsage - x.charge)
  }

  lemma SegOf(g: Segs, i: nat)
    requires i < |Order(g)|
    ensures var a, b := |g.bot|, |g.bot| + |g.low|;
      Order(g)[i] == if i < a then g.bot[i] else if i < b then g.low[i - a] else g.high[i - b]
  {
  }

  /** The last position of a prefix of the list, after one entry is taken out. */
  lemma TailCut(heap: seq<Handle>, order: seq<nat>, n: nat, i: nat)
    requires Linked(heap, order) && n <= |order| && i < |order|
    ensures order[i] < |heap| && heap[order[i]].prev == Pos(order, i)
    ensures Tail(order[..n]) == Pos(order, n)
    ensures i < n ==>
      Tail(Cut(order, i)[..n - 1]) == if Tail(order[..n]) == order[i] then Pos(order, i) else Tail(order[..n])
    ensures i >= n ==> Tail(order[..n]) != order[i]
  {
    Neighbours(heap, order, i);
    PosDistinct(heap, order, n, i + 1);
  }

  lemma CutSegsPrefixes(g: Segs, i: nat)
    requires i < |Order(g)|
    ensures var a, b, c, cut := |g.bot|, |g.bot| + |g.low|, CutSegs(g, i), Cut(Order(g), i);
      && c.bot == (if i < a then cut[..a - 1] else Order(g)[..a])
      && c.bot + c.low == (if i < b then cut[..b - 1] else Order(g)[..b])
  {
    var cut := Cut(Order(g), i);
    assert Order(CutSegs(g, i)) == cut;
  }

  lemma RemoveKeepsPointers(heap: seq<Handle>, g: Segs, p: Pools, i: nat)
    requires Segmented(heap, g, p) && i < |Order(g)|
    ensures Order(g)[i] < |heap| && 0 <= heap[Order(g)[i]].prev
    ensures var q, c := RemovePools(heap, p, Order(g)[i]), CutSegs(g, i);
      q.lowPri == Tail(c.bot + c.low) && q.bottomPri == Tail(c.bot)
  {
    var order, a, b, c := Order(g), |g.bot|, |g.bot| + |g.low|, CutSegs(g, i);
    assert order[..a] == g.bot && order[..b] == g.bot + g.low;
    TailCut(heap, order, a, i);
    TailCut(heap, order, b, i);
    hide Linked, LinkOk, FlagOk, Total, Pos;
    CutSegsPrefixes(g, i);
  }

  lemma RemoveKeepsTotals(heap: seq<Handle>, g: Segs, p: Pools, i: nat)
    requires Segmented(heap, g, p) && i < |Order(g)|
    ensures Order(g)[i] < |heap| && 0 <= heap[Order(g)[i]].prev
    ensures var q, c := RemovePools(heap, p, Order(g)[i]), CutSegs(g, i);
      && q.highUsage == Total(heap, c.high) && q.lowUsage == Total(heap, c.low) && q.lruUsage == Total(heap, Order(c))
  {
    hide Total;
    var order, a, b := Order(g), |g.bot|, |g.bot| + |g.low|;
    Neighbours(heap, order, i);
    SegOf(g, i);
    TotalCut(heap, order, i);
    if a <= i < b {
      TotalCut(heap, g.low, i - a);
      assert heap[order[i]].inLow && !heap[order[i]].inHigh;
    } else if i >= b {
      TotalCut(heap, g.high, i - b);
      assert heap[order[i]].inHigh && !heap[order[i]].inLow;
    } else {
      assert !heap[order[i]].inHigh && !heap[order[i]].inLow;
    }
  }

  lemma FlagsCut(heap: seq<Handle>, r: seq<Handle>, ids: seq<nat>, i: nat, inHigh: bool, inLow: bool)
    requires FlagOk(heap, ids, inHigh, inLow) && SameButLinks(heap, r)
    ensures FlagOk(r, ids, inHigh, inLow) && (i < |ids| ==> FlagOk(r, Cut(ids, i), inHigh, inLow))
  {
  }

  lemma RemoveKeepsSegmented(heap: seq<Handle>, g: Segs, p: Pools, i: nat)
    requires Segmented(heap, g, p) && i < |Order(g)|
    ensures Order(g)[i] < |heap| && 0 <= heap[Order(g)[i]].prev < |heap| && 0 <= heap[Order(g)[i]].next < |heap|
    ensures Segmented(Unlink(heap, Order(g)[i]), CutSegs(g, i), RemovePools(heap, p, Order(g)[i]))
    ensures SameButList(heap, Unlink(heap, Order(g)[i]))
  {
    var order := Order(g);
    Neighbours(heap, order, i);
    var r, c := Unlink(heap, order[i]), CutSegs(g, i);
    UnlinkKeepsLinked(heap, order, i);
    RemoveKeepsPointers(heap, g, p, i);
    RemoveKeepsTotals(heap, g, p, i);
    hide Unlink, Linked, LinkOk, Total;
    FlagsCut(heap, r, g.bot, i, false, false);
    if i >= |g.bot| {
      FlagsCut(heap, r, g.low, i - |g.bot|, false, true);
      if i >= |g.bot| + |g.low| { FlagsCut(heap, r, g.high, i - |g.bot| - |g.low|, true, false); }
    }
    FlagsCut(heap, r, g.low, 0, false, true);
    FlagsCut(heap, r, g.high, 0, true, false);
    TotalSame(heap, r, c.high);
    TotalSame(heap, r, c.low);
    TotalSame(heap, r, Order(c));
  }

  /** The list without its k oldest entries. */
  function DropOldest(g: Segs, k: nat): (c: Segs)
    requires k <= |Order(g)|
    ensures Order(c) == Order(g)[k..]
  {
    if k == 0 then g else CutSegs(DropOldest(g, k - 1), 0)
  }

  function IndexOf(ids: seq<nat>, e: nat): (i: nat)
    requires e in ids
    ensures i < |ids| && ids[i] == e
  {
    if ids[0] == e then 0 else 1 + IndexOf(ids[1..], e)
  }

  /** The list without e. */
  function Without(g: Segs, e: nat): (c: Segs)
    ensures e in Order(g) ==> Order(c) == Cut(Order(g), IndexOf(Order(g), e))
    ensures e !in Order(g) ==> c == g
  {
    if e in Order(g) then CutSegs(g, IndexOf(Order(g), e)) else g
  }

  // ---------------------------------------------------------------- LRU_Insert on values

  /** e becomes the newest entry of one segment. */
  function PutSegs(g: Segs, e: nat, level: Priority): Segs {
    match level
    case High => Segs(g.bot, g.low, g.high + [e])
    case Low => Segs(g.bot, g.low + [e], g.high)
    case Bottom => Segs(g.bot + [e], g.low, g.high)
  }

  function PutIndex(g: Segs, level: Priority): (i: nat)
    ensures i <= |Order(g)|
  {
    match level
    case High => |Order(g)|
    case Low => |g.bot| + |g.low|
    case Bottom => |g.bot|
  }

  function PutPools(p: Pools, e: nat, c: nat, level: Priority): Pools {
    match level
    case High => p.(highUsage := p.highUsage + c)
    case Low => p.(lowUsage := p.lowUsage + c)
    case Bottom => p.(bottomPri := e)
  }

  function PutFlags(h: Handle, level: Priority): Handle {
    h.(inHigh := level.High?, inLow := level.Low?)
  }

  /** Only pool flags differ. */
  ghost predicate SameButFlags(h: seq<Handle>, r: seq<Handle>) {
    && |r| == |h|
    && forall x: nat {:trigger r[x]} {:trigger h[x]} :: x < |h| ==>
         r[x] == h[x].(inHigh := r[x].inHigh, inLow := r[x].inLow)
  }

  lemma FlagsKeepLinked(h: seq<Handle>, r: seq<Handle>, order: seq<nat>)
    requires Linked(h, order) && SameButFlags(h, r)
    ensures Linked(r, order)
  {
    forall i: nat | i <= |order| ensures LinkOk(r, order, i) { assert LinkOk(h, order, i); }
  }

  lemma PutOrder(g: Segs, e: nat, level: Priority)
    ensures Order(PutSegs(g, e, level)) == Put(Order(g), PutIndex(g, level), e)
  {
  }

  lemma TotalPut(heap: seq<Handle>, ids: seq<nat>, e: nat)
    requires e < |heap|
    ensures Total(heap, ids + [e]) == Total(heap, ids) + heap[e].charge
  {
    hide Total;
    TotalConcat(heap, ids, [e]);
    TotalOne(heap, e);
  }

  lemma OrderTotal(heap: seq<Handle>, g: Segs)
    ensures Total(heap, Order(g)) == Total(heap, g.bot) + Total(heap, g.low) + Total(heap, g.high)
  {
    hide Total;
    TotalConcat(heap, g.bot + g.low, g.high);
    TotalConcat(heap, g.bot, g.low);
  }

  lemma PutTotals(h: seq<Handle>, r: seq<Handle>, g: Segs, e: nat, level: Priority)
    requires SameButList(h, r) && e < |h|
    ensures var c, k := PutSegs(g, e, level), h[e].charge;
      && Total(r, c.high) == Total(h, g.high) + (if level.High? then k else 0)
      && Total(r, c.low) == Total(h, g.low) + (if level.Low? then k else 0)
      && Total(r, Order(c)) == Total(h, Order(g)) + k
  {
    hide Total;
    var c := PutSegs(g, e, level);
    OrderTotal(h, g);
    OrderTotal(r, c);
    TotalSame(h, r, g.bot);
    TotalSame(h, r, g.low);
    TotalSame(h, r, g.high);
    TotalPut(r, match level case High => g.high case Low => g.low case Bottom => g.bot, e);
  }

  lemma FlagsPut(h: seq<Handle>, r: seq<Handle>, ids: seq<nat>, e: nat, inHigh: bool, inLow: bool)
    requires FlagOk(h, ids, inHigh, inLow) && e !in ids && e < |h| && |r| == |h|
    requires forall x: nat :: x < |h| && x != e ==> r[x].inHigh == h[x].inHigh && r[x].inLow == h[x].inLow
    ensures FlagOk(r, ids, inHigh, inLow)
    ensures r[e].inHigh == inHigh && r[e].inLow == inLow ==> FlagOk(r, ids + [e], inHigh, inLow)
  {
  }

  /** Where the code finds the place: after lru_.prev, lru_low_pri_ or lru_bottom_pri_. */
  lemma PutPlace(heap: seq<Handle>, g: Segs, level: Priority)
    requires Linked(heap, Order(g))
    ensures var x := Pos(Order(g), PutIndex(g, level));
      && x < |heap| && 0 <= heap[x].next < |heap|
      && x == match level case High => heap[0].prev case Low => Tail(g.bot + g.low) case Bottom => Tail(g.bot)
  {
    assert LinkOk(heap, Order(g), PutIndex(g, level));
    assert LinkOk(heap, Order(g), |Order(g)|);
  }

  lemma PutKeepsPooled(heap: seq<Handle>, g: Segs, p: Pools, e: nat, level: Priority)
    requires Pooled(heap, g, p) && 0 < e < |heap| && e !in Order(g)
    ensures Pos(Order(g), PutIndex(g, level)) < |heap| && 0 <= heap[Pos(Order(g), PutIndex(g, level))].next < |heap|
    ensures var r := LinkAfter(heap, e, Pos(Order(g), PutIndex(g, level)));
      && |r| == |heap| && SameButList(heap, r[e := PutFlags(r[e], level)])
      && Pooled(r[e := PutFlags(r[e], level)], PutSegs(g, e, level), PutPools(p, e, heap[e].charge, level))
      && Total(r[e := PutFlags(r[e], level)], Order(PutSegs(g, e, level))) == Total(heap, Order(g)) + heap[e].charge
  {
    hide Linked, LinkAfter, Total;
    var i := PutIndex(g, level);
    PutPlace(heap, g, level);
    var r := LinkAfter(heap, e, Pos(Order(g), i));
    LinkKeepsLinked(heap, Order(g), i, e);
    PutOrder(g, e, level);
    var q := r[e := PutFlags(r[e], level)];
    FlagsKeepLinked(r, q, Order(PutSegs(g, e, level)));
    PutTotals(heap, q, g, e, level);
    FlagsPut(heap, q, g.bot, e, false, false);
    FlagsPut(heap, q, g.low, e, false, true);
    FlagsPut(heap, q, g.high, e, true, false);
  }

  // ---------------------------------------------------------------- MaintainPoolSize on values

  /** How many of the oldest entries of a pool have to leave it. */
  function Overflow(heap: seq<Handle>, ids: seq<nat>, cap: real): (m: nat)
    ensures m <= |ids|
  {
    if ids == [] || Total(heap, ids) as real <= cap then 0 else 1 + Overflow(heap, ids[1..], cap)
  }

  /** The pools after MaintainPoolSize: the order stays, the cuts move. */
  function Maintained(heap: seq<Handle>, g: Segs, highCap: real, lowCap: real): Segs {
    var m := Overflow(heap, g.high, highCap);
    var low := g.low + g.high[..m];
    var k := Overflow(heap, low, lowCap);
    Segs(g.bot + low[..k], low[k..], g.high[m..])
  }

  /** What leaves a pool is the least that brings it within its limit. */
  lemma {:induction false} OverflowIsLeast(heap: seq<Handle>, ids: seq<nat>, cap: real)
    requires cap >= 0.0
    ensures Total(heap, ids[Overflow(heap, ids, cap)..]) as real <= cap
    ensures forall j: nat :: j < Overflow(heap, ids, cap) ==> Total(heap, ids[j..]) as real > cap
  {
    if ids == [] {
      assert Total(heap, ids) == 0;
    } else if Total(heap, ids) as real > cap {
      OverflowIsLeast(heap, ids[1..], cap);
      var m := Overflow(heap, ids[1..], cap);
      assert ids[1..][m..] == ids[m + 1..];
      forall j: nat | j < m + 1 ensures Total(heap, ids[j..]) as real > cap {
        if j > 0 { assert ids[1..][j - 1..] == ids[j..]; } else { assert ids[0..] == ids; }
      }
    } else {
      assert ids[0..] == ids;
    }
  }

  lemma MaintainedFits(heap: seq<Handle>, g: Segs, highCap: real, lowCap: real)
    requires highCap >= 0.0 && lowCap >= 0.0
    ensures var c := Maintained(heap, g, highCap, lowCap);
      && Order(c) == Order(g)
      && Total(heap, c.high) as real <= highCap && Total(heap, c.low) as real <= lowCap
  {
    hide Total, Overflow;
    var m := Overflow(heap, g.high, highCap);
    var low := g.low + g.high[..m];
    var k := Overflow(heap, low, lowCap);
    OverflowIsLeast(heap, g.high, highCap);
    OverflowIsLeast(heap, low, lowCap);
    assert low[..k] + low[k..] == low && g.high[..m] + g.high[m..] == g.high;
    assert (g.bot + low[..k]) + low[k..] == g.bot + low;
  }

  /** m entries go from the high pool to the low one and then k from the low one to the bottom, the oldest first, and no
      more than it takes to bring each pool within its limit. */
  ghost predicate LeastMoved(heap: seq<Handle>, g: Segs, c: Segs, m: nat, k: nat, highCap: real, lowCap: real) {
    && m <= |g.high| && k <= |g.low| + m
    && var low := g.low + g.high[..m];
       && c == Segs(g.bot + low[..k], low[k..], g.high[m..])
       && Total(heap, c.high) as real <= highCap && Total(heap, c.low) as real <= lowCap
       && (forall j: nat :: j < m ==> Total(heap, g.high[j..]) as real > highCap)
       && (forall j: nat :: j < k ==> Total(heap, low[j..]) as real > lowCap)
  }

  lemma MaintainedLeast(heap: seq<Handle>, g: Segs, highCap: real, lowCap: real) returns (m: nat, k: nat)
    requires highCap >= 0.0 && lowCap >= 0.0
    ensures LeastMoved(heap, g, Maintained(heap, g, highCap, lowCap), m, k, highCap, lowCap)
  {
    hide Total, Overflow;
    m := Overflow(heap, g.high, highCap);
    k := Overflow(heap, g.low + g.high[..m], lowCap);
    OverflowIsLeast(heap, g.high, highCap);
    OverflowIsLeast(heap, g.low + g.high[..m], lowCap);
  }

  /** Pools that are within their limits stay as they are. */
  lemma MaintainedIdle(heap: seq<Handle>, g: Segs, highCap: real, lowCap: real)
    requires Total(heap, g.high) as real <= highCap && Total(heap, g.low) as real <= lowCap
    ensures Maintained(heap, g, highCap, lowCap) == g
  {
    hide Total;
    assert g.low + g.high[..0] == g.low;
  }

  /** Moving x from the old end of `from` to the new end of `to` moves its charge. */
  lemma ShiftTotals(heap: seq<Handle>, r: seq<Handle>, from: seq<nat>, to: seq<nat>)
    requires from != [] && from[0] < |heap| && SameButList(heap, r)
    ensures Total(r, from[1..]) == Total(heap, from) - heap[from[0]].charge
    ensures Total(r, to + [from[0]]) == Total(heap, to) + heap[from[0]].charge
  {
    hide Total;
    var x := from[0];
    TotalSame(heap, r, from[1..]);
    TotalSame(heap, r, to + [x]);
    TotalPut(heap, to, x);
    assert from == [x] + from[1..];
    TotalConcat(heap, [x], from[1..]);
    TotalOne(heap, x);
  }

  lemma ShiftFlags(heap: seq<Handle>, from: seq<nat>, to: seq<nat>, x: nat, h: bool, l: bool, y: Handle)
    requires from != [] && x == from[0] && x < |heap| && FlagOk(heap, to, y.inHigh, y.inLow) && FlagOk(heap, from, h, l)
    requires x !in to && x !in from[1..]
    ensures FlagOk(heap[x := y], from[1..], h, l) && FlagOk(heap[x := y], to + [x], y.inHigh, y.inLow)
  {
    assert FlagOk(heap, from[1..], h, l);
    FlagsPut(heap, heap[x := y], from[1..], x, h, l);
    FlagsPut(heap, heap[x := y], to, x, y.inHigh, y.inLow);
  }

  lemma ShiftHigh(heap: seq<Handle>, g: Segs, p: Pools)
    requires Pooled(heap, g, p) && p.lowPri == Tail(g.bot + g.low) && g.high != []
    ensures var x, c := g.high[0], Segs(g.bot, g.low + [g.high[0]], g.high[1..]);
      && 0 < x < |heap| && p.lowPri < |heap| && heap[p.lowPri].next == x && Order(c) == Order(g)
      && Pooled(heap[x := PutFlags(heap[x], Low)], c,
                p.(lowPri := x, highUsage := p.highUsage - heap[x].charge, lowUsage := p.lowUsage + heap[x].charge))
      && x == Tail(c.bot + c.low) && SameButList(heap, heap[x := PutFlags(heap[x], Low)])
  {
    hide Linked, Total, FlagOk;
    var x := g.high[0];
    var i := |g.bot| + |g.low|;
    assert Order(g)[i] == x && Pos(Order(g), i) == Tail(g.bot + g.low);
    assert Order(Segs(g.bot, g.low + [x], g.high[1..])) == Order(g);
    NextIs(heap, Order(g), i);
    var r := heap[x := PutFlags(heap[x], Low)];
    FlagsKeepLinked(heap, r, Order(g));
    assert x !in g.bot && x !in g.low && x !in g.high[1..] by { Apart(heap, g, i); }
    FlagsPut(heap, r, g.bot, x, false, false);
    ShiftFlags(heap, g.high, g.low, x, true, false, PutFlags(heap[x], Low));
    ShiftTotals(heap, r, g.high, g.low);
  }

  /** The entry at position i is nowhere else. */
  lemma Apart(heap: seq<Handle>, g: Segs, i: nat)
    requires Linked(heap, Order(g)) && i < |Order(g)|
    ensures forall j :: 0 <= j < |g.bot| && j != i ==> g.bot[j] != Order(g)[i]
    ensures forall j :: 0 <= j < |g.low| && j + |g.bot| != i ==> g.low[j] != Order(g)[i]
    ensures forall j :: 0 <= j < |g.high| && j + |g.bot| + |g.low| != i ==> g.high[j] != Order(g)[i]
  {
    var o := Order(g);
    forall j | 0 <= j < |g.bot| && j != i ensures g.bot[j] != o[i] { assert o[j] == g.bot[j]; }
    forall j | 0 <= j < |g.low| && j + |g.bot| != i ensures g.low[j] != o[i] { assert o[j + |g.bot|] == g.low[j]; }
    forall j | 0 <= j < |g.high| && j + |g.bot| + |g.low| != i ensures g.high[j] != o[i] {
      assert o[j + |g.bot| + |g.low|] == g.high[j];
    }
  }

  lemma ShiftLow(heap: seq<Handle>, g: Segs, p: Pools)
    requires Pooled(heap, g, p) && g.low != []
    ensures var x, c := g.low[0], Segs(g.bot + [g.low[0]], g.low[1..], g.high);
      && 0 < x < |heap| && p.bottomPri < |heap| && heap[p.bottomPri].next == x && Order(c) == Order(g)
      && Pooled(heap[x := PutFlags(heap[x], Bottom)], c, p.(bottomPri := x, lowUsage := p.lowUsage - heap[x].charge))
      && c.bot + c.low == g.bot + g.low && SameButList(heap, heap[x := PutFlags(heap[x], Bottom)])
  {
    hide Linked, Total, FlagOk;
    var x := g.low[0];
    var i := |g.bot|;
    assert (g.bot + [x]) + g.low[1..] == g.bot + g.low;
    assert Order(g)[i] == x && Pos(Order(g), i) == Tail(g.bot);
    NextIs(heap, Order(g), i);
    var r := heap[x := PutFlags(heap[x], Bottom)];
    FlagsKeepLinked(heap, r, Order(g));
    assert x !in g.bot && x !in g.low[1..] && x !in g.high by { Apart(heap, g, i); }
    FlagsPut(heap, r, g.high, x, true, false);
    ShiftFlags(heap, g.low, g.bot, x, false, true, PutFlags(heap[x], Bottom));
    ShiftTotals(heap, r, g.low, g.bot);
    TotalSame(heap, r, g.high);
  }

  lemma SameRefl(h: seq<Handle>)
    ensures SameButList(h, h)
  {
  }

  lemma SameTrans(a: seq<Handle>, b: seq<Handle>, c: seq<Handle>)
    requires SameButList(a, b) && SameButList(b, c)
    ensures SameButList(a, c)
  {
  }

  /** An overfull pool has an entry to give away. */
  lemma NotEmpty(heap: seq<Handle>, g: Segs, p: Pools)
    requires Pooled(heap, g, p)
    ensures p.highUsage > 0 ==> g.high != []
    ensures p.lowUsage > 0 ==> g.low != []
  {
  }

  lemma PooledTotals(heap: seq<Handle>, g: Segs, p: Pools)
    requires Pooled(heap, g, p)
    ensures p.highUsage == Total(heap, g.high) && p.lowUsage == Total(heap, g.low)
  {
  }

  lemma {:induction false} OverflowSame(h: seq<Handle>, r: seq<Handle>, ids: seq<nat>, cap: real)
    requires SameButList(h, r)
    ensures Overflow(r, ids, cap) == Overflow(h, ids, cap)
  {
    TotalSame(h, r, ids);
    if ids != [] { OverflowSame(h, r, ids[1..], cap); }
  }

  lemma MaintainedSame(h: seq<Handle>, r: seq<Handle>, g: Segs, highCap: real, lowCap: real)
    requires SameButList(h, r)
    ensures Maintained(r, g, highCap, lowCap) == Maintained(h, g, highCap, lowCap)
  {
    OverflowSame(h, r, g.high, highCap);
    OverflowSame(h, r, g.low + g.high[..Overflow(h, g.high, highCap)], lowCap);
  }

  /** One round of the first loop leaves the outcome as it was. */
  lemma MaintainedShiftHigh(heap: seq<Handle>, g: Segs, highCap: real, lowCap: real)
    requires g.high != [] && Total(heap, g.high) as real > highCap
    ensures Maintained(heap, Segs(g.bot, g.low + [g.high[0]], g.high[1..]), highCap, lowCap)
         == Maintained(heap, g, highCap, lowCap)
  {
    hide Total;
    var c := Segs(g.bot, g.low + [g.high[0]], g.high[1..]);
    var m := Overflow(heap, c.high, highCap);
    assert Overflow(heap, g.high, highCap) == m + 1;
    assert c.low + c.high[..m] == g.low + g.high[..m + 1];
    assert c.high[m..] == g.high[m + 1..];
  }

  /** One round of the second loop does so too. */
  lemma MaintainedShiftLow(heap: seq<Handle>, g: Segs, highCap: real, lowCap: real)
    requires g.low != [] && Total(heap, g.high) as real <= highCap && Total(heap, g.low) as real > lowCap
    ensures Maintained(heap, Segs(g.bot + [g.low[0]], g.low[1..], g.high), highCap, lowCap)
         == Maintained(heap, g, highCap, lowCap)
  {
    hide Total;
    var c := Segs(g.bot + [g.low[0]], g.low[1..], g.high);
    assert g.low + g.high[..0] == g.low && c.low + c.high[..0] == c.low;
    var k := Overflow(heap, c.low, lowCap);
    assert Overflow(heap, g.low, lowCap) == k + 1;
    assert c.bot + c.low[..k] == g.bot + g.low[..k + 1];
    assert c.low[k..] == g.low[k + 1..];
  }

  /** One round of MaintainPoolSize's first loop. */
  lemma HighRound(h: seq<Handle>, heap: seq<Handle>, g: Segs, p: Pools, highCap: real, lowCap: real)
    requires Pooled(heap, g, p) && p.lowPri == Tail(g.bot + g.low) && SameButList(h, heap)
    requires highCap >= 0.0 && p.highUsage as real > highCap
    ensures g.high != []
    ensures var x, c := g.high[0], Segs(g.bot, g.low + [g.high[0]], g.high[1..]);
      && 0 < x < |heap| && p.lowPri < |heap| && heap[p.lowPri].next == x && Order(c) == Order(g)
      && Pooled(heap[x := PutFlags(heap[x], Low)], c,
                p.(lowPri := x, highUsage := p.highUsage - heap[x].charge, lowUsage := p.lowUsage + heap[x].charge))
      && x == Tail(c.bot + c.low) && SameButList(h, heap[x := PutFlags(heap[x], Low)])
      && Maintained(heap[x := PutFlags(heap[x], Low)], c, highCap, lowCap) == Maintained(heap, g, highCap, lowCap)
  {
    NotEmpty(heap, g, p);
    PooledTotals(heap, g, p);
    hide Pooled, Total, Maintained, SameButList;
    var x, c := g.high[0], Segs(g.bot, g.low + [g.high[0]], g.high[1..]);
    ShiftHigh(heap, g, p);
    MaintainedShiftHigh(heap, g, highCap, lowCap);
    var r := heap[x := PutFlags(heap[x], Low)];
    SameTrans(h, heap, r);
    MaintainedSame(heap, r, c, highCap, lowCap);
  }

  /** One round of the second loop. */
  lemma LowRound(h: seq<Handle>, heap: seq<Handle>, g: Segs, p: Pools, highCap: real, lowCap: real)
    requires Pooled(heap, g, p) && SameButList(h, heap)
    requires p.highUsage as real <= highCap && lowCap >= 0.0 && p.lowUsage as real > lowCap
    ensures g.low != []
    ensures var x, c := g.low[0], Segs(g.bot + [g.low[0]], g.low[1..], g.high);
      && 0 < x < |heap| && p.bottomPri < |heap| && heap[p.bottomPri].next == x && Order(c) == Order(g)
      && Pooled(heap[x := PutFlags(heap[x], Bottom)], c, p.(bottomPri := x, lowUsage := p.lowUsage - heap[x].charge))
      && c.bot + c.low == g.bot + g.low && SameButList(h, heap[x := PutFlags(heap[x], Bottom)])
      && Maintained(heap[x := PutFlags(heap[x], Bottom)], c, highCap, lowCap) == Maintained(heap, g, highCap, lowCap)
  {
    NotEmpty(heap, g, p);
    PooledTotals(heap, g, p);
    hide Pooled, Total, Maintained, SameButList;
    var x, c := g.low[0], Segs(g.bot + [g.low[0]], g.low[1..], g.high);
    ShiftLow(heap, g, p);
    MaintainedShiftLow(heap, g, highCap, lowCap);
    var r := heap[x := PutFlags(heap[x], Bottom)];
    SameTrans(h, heap, r);
    MaintainedSame(heap, r, c, highCap, lowCap);
  }

  // ---------------------------------------------------------------- which pool an entry goes to

  function Level(h: Handle, highRatio: real, lowRatio: real): Priority {
    if highRatio > 0.0 && (h.pri.High? || h.hit) then High
    else if lowRatio > 0.0 && (h.pri.High? || h.pri.Low? || h.hit) then Low
    else Bottom
  }

  datatype Limits = Limits(highRatio: real, lowRatio: real, highCap: real, lowCap: real)

  /** Where LRU_Insert leaves e and the cuts: e becomes the newest entry of its pool, and then the pools overflow. */
  function Landed(heap: seq<Handle>, g: Segs, e: nat, l: Limits): Segs
    requires e < |heap|
  {
    var level := Level(heap[e], l.highRatio, l.lowRatio);
    var put := PutSegs(g, e, level);
    if level.Bottom? then put else Maintained(heap, put, l.highCap, l.lowCap)
  }

  /** Where e, with these fields, belongs on the list: nothing is newer than it if there is a high pool and it is of
      high priority or was hit; otherwise exactly the high entries are, if there is a low pool and it is not of bottom
      priority or was hit; and otherwise exactly the low and the high ones. */
  predicate Belongs(x: Handle, highRatio: real, lowRatio: real, g: Segs, e: nat, now: seq<nat>) {
    if highRatio > 0.0 && (x.pri == High || x.hit) then now == g.bot + g.low + g.high + [e]
    else if lowRatio > 0.0 && (x.pri != Bottom || x.hit) then now == g.bot + g.low + [e] + g.high
    else now == g.bot + [e] + g.low + g.high
  }

  lemma LandedBelongs(heap: seq<Handle>, g: Segs, e: nat, l: Limits)
    requires e < |heap| && l.highCap >= 0.0 && l.lowCap >= 0.0
    ensures Belongs(heap[e], l.highRatio, l.lowRatio, g, e, Order(Landed(heap, g, e, l)))
    ensures Order(Landed(heap, g, e, l)) == Order(PutSegs(g, e, Level(heap[e], l.highRatio, l.lowRatio)))
  {
    hide Maintained;
    var put := PutSegs(g, e, Level(heap[e], l.highRatio, l.lowRatio));
    MaintainedFits(heap, put, l.highCap, l.lowCap);
    assert g.bot + g.low + (g.high + [e]) == g.bot + g.low + g.high + [e];
    assert g.bot + (g.low + [e]) + g.high == g.bot + g.low + [e] + g.high;
  }

  /** The handles differ only in what has no influence on where an entry lands. */
  ghost predicate SameWeights(h: seq<Handle>, r: seq<Handle>) {
    && |r| == |h|
    && forall x: nat {:trigger r[x]} :: x < |h| ==>
         r[x].charge == h[x].charge && r[x].pri == h[x].pri && r[x].hit == h[x].hit
  }

  lemma TotalWeights(h: seq<Handle>, r: seq<Handle>, ids: seq<nat>)
    requires SameWeights(h, r)
    ensures Total(r, ids) == Total(h, ids)
  {
    assert Charges(r, ids) == Charges(h, ids);
  }

  lemma {:induction false} OverflowWeights(h: seq<Handle>, r: seq<Handle>, ids: seq<nat>, cap: real)
    requires SameWeights(h, r)
    ensures Overflow(r, ids, cap) == Overflow(h, ids, cap)
  {
    TotalWeights(h, r, ids);
    if ids != [] { OverflowWeights(h, r, ids[1..], cap); }
  }

  lemma LandedSame(h: seq<Handle>, r: seq<Handle>, g: Segs, e: nat, l: Limits)
    requires SameWeights(h, r) && e < |h|
    ensures Landed(r, g, e, l) == Landed(h, g, e, l)
  {
    hide Overflow, SameWeights;
    assert |r| == |h| && Level(r[e], l.highRatio, l.lowRatio) == Level(h[e], l.highRatio, l.lowRatio) by {
      WeightsAt(h, r, e);
    }
    var put := PutSegs(g, e, Level(h[e], l.highRatio, l.lowRatio));
    OverflowWeights(h, r, put.high, l.highCap);
    OverflowWeights(h, r, put.low + put.high[..Overflow(h, put.high, l.highCap)], l.lowCap);
  }

  lemma WeightsAt(h: seq<Handle>, r: seq<Handle>, x: nat)
    requires SameWeights(h, r) && x < |h|
    ensures |r| == |h| && r[x].charge == h[x].charge && r[x].pri == h[x].pri && r[x].hit == h[x].hit
  {
  }

  lemma ListWeights(h: seq<Handle>, r: seq<Handle>)
    requires SameButList(h, r)
    ensures SameWeights(h, r)
  {
  }

  lemma OpenSegmented(heap: seq<Handle>, g: Segs, p: Pools)
    ensures Segmented(heap, g, p) <==>
      Pooled(heap, g, p) && p.lowPri == Tail(g.bot + g.low) && p.lruUsage == Total(heap, Order(g))
  {
  }

  lemma PooledLinked(heap: seq<Handle>, g: Segs, p: Pools)
    requires Pooled(heap, g, p)
    ensures Linked(heap, Order(g)) && p.bottomPri == Tail(g.bot)
    ensures forall low: nat, lru: int :: Pooled(heap, g, p.(lowPri := low, lruUsage := lru))
  {
  }

  lemma TailAppend(a: seq<nat>, b: seq<nat>, e: nat)
    ensures Tail(a + (b + [e])) == e
    ensures b != [] ==> Tail((a + [e]) + b) == Tail(a + b)
    ensures b == [] ==> Tail((a + [e]) + b) == e
  {
  }

  /** The two pointers meet exactly when the low segment is empty. */
  lemma PointersMeet(heap: seq<Handle>, g: Segs)
    requires Linked(heap, Order(g))
    ensures Tail(g.bot) == Tail(g.bot + g.low) <==> g.low == []
  {
    if g.low != [] {
      var n := |g.bot| + |g.low|;
      PosDistinct(heap, Order(g), |g.bot|, n);
      assert Pos(Order(g), n) == Tail(g.bot + g.low) && Pos(Order(g), |g.bot|) == Tail(g.bot);
    }
  }

  /** A new handle, not on the list. */
  lemma GrowSegmented(heap: seq<Handle>, g: Segs, p: Pools, x: Handle)
    requires Segmented(heap, g, p) && x.next == NULL && x.prev == NULL
    ensures Segmented(heap + [x], g, p)
  {
    var r := heap + [x];
    forall i: nat | i <= |Order(g)| ensures LinkOk(r, Order(g), i) { assert LinkOk(heap, Order(g), i); }
    assert Charges(r, g.high) == Charges(heap, g.high);
    assert Charges(r, g.low) == Charges(heap, g.low);
    GrowTotal(heap, Order(g), x);
  }

  lemma GrowTotal(heap: seq<Handle>, ids: seq<nat>, x: Handle)
    requires Ids(heap, ids)
    ensures Total(heap + [x], ids) == Total(heap, ids)
  {
    assert Charges(heap + [x], ids) == Charges(heap, ids);
  }

  /** A handle's fields other than those of the list change. */
  lemma EditSegmented(heap: seq<Handle>, g: Segs, p: Pools, e: nat, x: Handle)
    requires Segmented(heap, g, p) && e < |heap| && SameListFields(heap[e], x)
    ensures Segmented(heap[e := x], g, p)
  {
    EditLinked(heap, Order(g), e, x);
    var r := heap[e := x];
    assert Charges(r, g.high) == Charges(heap, g.high);
    assert Charges(r, g.low) == Charges(heap, g.low);
    assert Charges(r, Order(g)) == Charges(heap, Order(g));
  }

  lemma EditLinked(heap: seq<Handle>, order: seq<nat>, e: nat, x: Handle)
    requires Linked(heap, order) && e < |heap| && SameListFields(heap[e], x)
    ensures Linked(heap[e := x], order)
  {
    var r := heap[e := x];
    forall i: nat | i <= |order| ensures LinkOk(r, order, i) { assert LinkOk(heap, order, i); }
  }

  predicate SameListFields(a: Handle, b: Handle) {
    b.next == a.next && b.prev == a.prev && b.inHigh == a.inHigh && b.inLow == a.inLow && b.charge == a.charge
  }
}
