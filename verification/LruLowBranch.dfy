/**
 The low branch of LRU_Insert without any condition on the pools.

 It calls MaintainPoolSize while lru_low_pri_ still points before the new entry, and points it at the new entry
 afterwards.  Here its two loops are followed round by round, with the usages as unsigned 64-bit numbers, on any
 list: the loops may go on past the end of a segment, through the sentinel and around the list.
 */
module LruLowBranch {
  import opened Sums
  import opened LruList
  import opened LruShard

  const SIZE: nat := 0x1_0000_0000_0000_0000

  datatype Walk = Walk(heap: seq<Handle>, p: Pools)

  /** One round of MaintainPoolSize's first loop. */
  function HighRoundOf(w: Walk): Walk {
    if w.p.lowPri < |w.heap| && 0 <= w.heap[w.p.lowPri].next < |w.heap| then
      var x := w.heap[w.p.lowPri].next;
      var c := w.heap[x].charge;
      Walk(w.heap[x := PutFlags(w.heap[x], Low)],
           w.p.(lowPri := x, highUsage := (w.p.highUsage - c) % SIZE, lowUsage := (w.p.lowUsage + c) % SIZE))
    else w
  }

  /** One round of its second loop. */
  function LowRoundOf(w: Walk): Walk {
    if w.p.bottomPri < |w.heap| && 0 <= w.heap[w.p.bottomPri].next < |w.heap| then
      var x := w.heap[w.p.bottomPri].next;
      Walk(w.heap[x := PutFlags(w.heap[x], Bottom)],
           w.p.(bottomPri := x, lowUsage := (w.p.lowUsage - w.heap[x].charge) % SIZE))
    else w
  }

  function HighRounds(w: Walk, n: nat): Walk {
    if n == 0 then w else HighRoundOf(HighRounds(w, n - 1))
  }

  function LowRounds(w: Walk, n: nat): Walk {
    if n == 0 then w else LowRoundOf(LowRounds(w, n - 1))
  }

  /** The first loop stops after exactly n rounds. */
  predicate HighStops(w: Walk, cap: real, n: nat) {
    && HighRounds(w, n).p.highUsage as real <= cap
    && forall m: nat :: m < n ==> HighRounds(w, m).p.highUsage as real > cap
  }

  predicate LowStops(w: Walk, cap: real, n: nat) {
    && LowRounds(w, n).p.lowUsage as real <= cap
    && forall m: nat :: m < n ==> LowRounds(w, m).p.lowUsage as real > cap
  }

  /** A list, a handle e that is not on it, and numbers that fit. */
  ghost predicate Before(h: seq<Handle>, g: Segs, p: Pools, e: nat) {
    && Segmented(h, g, p) && 0 < e < |h| && e !in Order(g) && p.lruUsage + h[e].charge < SIZE
  }

  /** e is hooked in after lru_low_pri_ and counted in the low pool; MaintainPoolSize is next. */
  function Hooked(h: seq<Handle>, p: Pools, e: nat): Walk
    requires e < |h| && p.lowPri < |h| && 0 <= h[p.lowPri].next < |h|
  {
    var r := LinkAfter(h, e, p.lowPri);
    Walk(r[e := PutFlags(r[e], Low)], p.(lowUsage := (p.lowUsage + h[e].charge) % SIZE))
  }

  /** The branch ends after n and k rounds of the two loops. */
  predicate Ends(h: seq<Handle>, p: Pools, e: nat, highCap: real, lowCap: real, n: nat, k: nat)
    requires e < |h| && p.lowPri < |h| && 0 <= h[p.lowPri].next < |h|
  {
    HighStops(Hooked(h, p, e), highCap, n) && LowStops(HighRounds(Hooked(h, p, e), n), lowCap, k)
  }

  /** What it leaves then. */
  function Outcome(h: seq<Handle>, p: Pools, e: nat, n: nat, k: nat): Walk
    requires e < |h| && p.lowPri < |h| && 0 <= h[p.lowPri].next < |h|
  {
    var w := LowRounds(HighRounds(Hooked(h, p, e), n), k);
    Walk(w.heap, w.p.(lowPri := e, lruUsage := (p.lruUsage + h[e].charge) % SIZE))
  }

  // ---------------------------------------------------------------- what the loops leave alone

  lemma {:induction false} HighRoundsFlags(w: Walk, n: nat)
    ensures SameButFlags(w.heap, HighRounds(w, n).heap)
    ensures HighRounds(w, n).p == w.p.(lowPri := HighRounds(w, n).p.lowPri, highUsage := HighRounds(w, n).p.highUsage,
                                       lowUsage := HighRounds(w, n).p.lowUsage)
  {
    if n > 0 { HighRoundsFlags(w, n - 1); }
  }

  lemma {:induction false} LowRoundsFlags(w: Walk, n: nat)
    ensures SameButFlags(w.heap, LowRounds(w, n).heap)
    ensures LowRounds(w, n).p == w.p.(bottomPri := LowRounds(w, n).p.bottomPri, lowUsage := LowRounds(w, n).p.lowUsage)
  {
    if n > 0 { LowRoundsFlags(w, n - 1); }
  }

  lemma FlagsTwice(a: seq<Handle>, b: seq<Handle>, c: seq<Handle>)
    requires SameButFlags(a, b) && SameButFlags(b, c)
    ensures SameButFlags(a, c)
  {
  }

  lemma FlagsAreList(a: seq<Handle>, b: seq<Handle>)
    requires SameButFlags(a, b)
    ensures SameButList(a, b)
  {
  }

  /** The links of a circular list determine it. */
  lemma {:induction false} SamePos(heap: seq<Handle>, a: seq<nat>, b: seq<nat>, i: nat)
    requires Linked(heap, a) && Linked(heap, b) && i <= |a|
    ensures i <= |b| && Pos(b, i) == Pos(a, i)
  {
    if i > 0 {
      SamePos(heap, a, b, i - 1);
      NextIs(heap, a, i - 1);
      NextIs(heap, b, i - 1);
    }
  }

  lemma SameOrder(heap: seq<Handle>, a: seq<nat>, b: seq<nat>)
    requires Linked(heap, a) && Linked(heap, b)
    ensures a == b
  {
    SamePos(heap, a, b, |a|);
    SamePos(heap, b, a, |b|);
    forall i | 0 <= i < |a| ensures a[i] == b[i] { SamePos(heap, a, b, i + 1); }
  }

  /** lru_low_pri_ determines the high segment. */
  lemma HighAfter(heap: seq<Handle>, c: Segs, e: nat, n: nat)
    requires Linked(heap, Order(c)) && n < |Order(c)| && Order(c)[n] == e && Tail(c.bot + c.low) == e
    ensures c.high == Order(c)[n + 1..]
  {
    var m := |c.bot| + |c.low|;
    assert Pos(Order(c), m) == Tail(c.bot + c.low);
    PosDistinct(heap, Order(c), m, n + 1);
    assert Order(c)[m..] == c.high;
  }

  // ---------------------------------------------------------------- the branch

  lemma PlaceOk(h: seq<Handle>, g: Segs, p: Pools, e: nat)
    requires Before(h, g, p, e)
    ensures p.lowPri < |h| && 0 <= h[p.lowPri].next < |h| && p.lowPri == Pos(Order(g), PutIndex(g, Low))
    ensures 0 <= p.lowUsage && p.lowUsage + h[e].charge < SIZE
  {
    hide Total;
    PutPlace(h, g, Low);
    OrderTotal(h, g);
    TotalNonNegative(h, g.bot);
    TotalNonNegative(h, g.low);
    TotalNonNegative(h, g.high);
  }

  lemma HookedPooled(h: seq<Handle>, g: Segs, p: Pools, e: nat)
    requires Before(h, g, p, e)
    requires p.lowPri < |h| && 0 <= h[p.lowPri].next < |h|
    ensures var w, c := Hooked(h, p, e), PutSegs(g, e, Low);
      && Pooled(w.heap, c, w.p) && SameButList(h, w.heap) && Total(w.heap, Order(c)) == p.lruUsage + h[e].charge
      && w.p == p.(lowUsage := p.lowUsage + h[e].charge)
  {
    hide Pooled, LinkAfter, Total;
    PlaceOk(h, g, p, e);
    OpenSegmented(h, g, p);
    PutKeepsPooled(h, g, p, e, Low);
  }

  /** Whatever the loops do, the links and the recorded totals are these. */
  lemma OutcomeShape(h: seq<Handle>, g: Segs, p: Pools, e: nat, n: nat, k: nat)
    requires Before(h, g, p, e)
    requires p.lowPri < |h| && 0 <= h[p.lowPri].next < |h|
    ensures var w := Outcome(h, p, e, n, k);
      && Linked(w.heap, Order(PutSegs(g, e, Low))) && SameButList(h, w.heap) && w.p.lowPri == e
      && w.p.highUsage == HighRounds(Hooked(h, p, e), n).p.highUsage
  {
    hide Pooled, Linked, Hooked, SameButList, SameButFlags;
    var w0 := Hooked(h, p, e);
    var w1 := HighRounds(w0, n);
    var w2 := LowRounds(w1, k);
    HookedPooled(h, g, p, e);
    PooledLinked(w0.heap, PutSegs(g, e, Low), w0.p);
    HighRoundsFlags(w0, n);
    LowRoundsFlags(w1, k);
    FlagsTwice(w0.heap, w1.heap, w2.heap);
    FlagsKeepLinked(w0.heap, w2.heap, Order(PutSegs(g, e, Low)));
    FlagsAreList(w0.heap, w2.heap);
    SameTrans(h, w0.heap, w2.heap);
  }

  /** If the high pool is over its limit, every way the branch may end leaves the list's invariant broken: the
      recorded high usage is within the limit, while the high segment, behind e, is still over it. */
  lemma LowBranchBreaks(h: seq<Handle>, g: Segs, p: Pools, e: nat, highCap: real, lowCap: real, n: nat, k: nat, c: Segs)
    requires Before(h, g, p, e) && p.highUsage as real > highCap
    requires p.lowPri < |h| && 0 <= h[p.lowPri].next < |h| && Ends(h, p, e, highCap, lowCap, n, k)
    ensures !Segmented(Outcome(h, p, e, n, k).heap, c, Outcome(h, p, e, n, k).p)
  {
    hide Linked, FlagOk, Total, Outcome, Hooked, SameButList, HighRounds, LowRounds;
    var w := Outcome(h, p, e, n, k);
    OutcomeShape(h, g, p, e, n, k);
    if Segmented(w.heap, c, w.p) {
      var put, m := PutSegs(g, e, Low), |g.bot| + |g.low|;
      SameOrder(w.heap, Order(c), Order(put));
      assert Order(put)[m] == e && Order(put)[m + 1..] == g.high;
      HighAfter(w.heap, c, e, m);
      TotalSame(h, w.heap, g.high);
    }
  }

  /** While the low pool is over its limit its oldest entry goes to the bottom, as it should. */
  lemma LowRoundKeeps(v: Walk, d: Segs) returns (c: Segs)
    requires Pooled(v.heap, d, v.p) && 0 < v.p.lowUsage < SIZE
    ensures Pooled(LowRoundOf(v).heap, c, LowRoundOf(v).p) && c.bot + c.low == d.bot + d.low && c.high == d.high
    ensures 0 <= LowRoundOf(v).p.lowUsage < SIZE
  {
    hide Pooled, PutFlags, Total;
    NotEmpty(v.heap, d, v.p);
    ShiftLow(v.heap, d, v.p);
    c := Segs(d.bot + [d.low[0]], d.low[1..], d.high);
    ChargeFits(v.heap, d, v.p);
  }

  lemma {:induction false} LowRoundsKeep(w: Walk, g: Segs, cap: real, k: nat) returns (c: Segs)
    requires Pooled(w.heap, g, w.p) && cap >= 0.0 && 0 <= w.p.lowUsage < SIZE
    requires forall m: nat :: m < k ==> LowRounds(w, m).p.lowUsage as real > cap
    ensures Pooled(LowRounds(w, k).heap, c, LowRounds(w, k).p) && c.bot + c.low == g.bot + g.low && c.high == g.high
    ensures 0 <= LowRounds(w, k).p.lowUsage < SIZE
  {
    hide Pooled, LowRoundOf;
    c := g;
    if k > 0 {
      c := LowRoundsKeep(w, g, cap, k - 1);
      assert LowRounds(w, k - 1).p.lowUsage as real > cap;
      c := LowRoundKeeps(LowRounds(w, k - 1), c);
    }
  }

  lemma ChargeFits(heap: seq<Handle>, g: Segs, p: Pools)
    requires Pooled(heap, g, p) && g.low != [] && g.low[0] < |heap|
    ensures heap[g.low[0]].charge <= p.lowUsage
  {
    hide Total;
    var x := g.low[0];
    assert g.low == [x] + g.low[1..];
    TotalConcat(heap, [x], g.low[1..]);
    TotalOne(heap, x);
    TotalNonNegative(heap, g.low[1..]);
  }

  lemma LowBranchKeeps(h: seq<Handle>, g: Segs, p: Pools, e: nat, highCap: real, lowCap: real, n: nat, k: nat)
    returns (c: Segs)
    requires Before(h, g, p, e) && p.highUsage as real <= highCap && lowCap >= 0.0
    requires p.lowPri < |h| && 0 <= h[p.lowPri].next < |h| && Ends(h, p, e, highCap, lowCap, n, k)
    ensures Segmented(Outcome(h, p, e, n, k).heap, c, Outcome(h, p, e, n, k).p)
  {
    hide Pooled, Total, SameButList, Hooked, SameButFlags, Segmented;
    var w := Hooked(h, p, e);
    PlaceOk(h, g, p, e);
    HookedPooled(h, g, p, e);
    assert n == 0 by { assert HighRounds(w, 0) == w; }
    c := LowRoundsKeep(w, PutSegs(g, e, Low), lowCap, k);
    var v := LowRounds(w, k);
    PooledLinked(v.heap, c, v.p);
    LowRoundsFlags(w, k);
    FlagsAreList(w.heap, v.heap);
    TotalSame(w.heap, v.heap, Order(c));
    assert Order(c) == Order(PutSegs(g, e, Low));
    TailAppend(g.bot, g.low, e);
    OrderTotalNow(h, g, p);
    OpenSegmented(v.heap, c, Outcome(h, p, e, n, k).p);
  }

  lemma OrderTotalNow(h: seq<Handle>, g: Segs, p: Pools)
    requires Segmented(h, g, p)
    ensures p.lruUsage >= 0
  {
    TotalNonNegative(h, Order(g));
  }

  /** The low branch keeps the list's invariant if and only if the high pool is within its limit on entry. */
  lemma LowBranchIff(h: seq<Handle>, g: Segs, p: Pools, e: nat, highCap: real, lowCap: real, n: nat, k: nat)
    requires Before(h, g, p, e) && lowCap >= 0.0
    requires p.lowPri < |h| && 0 <= h[p.lowPri].next < |h| && Ends(h, p, e, highCap, lowCap, n, k)
    ensures p.highUsage as real <= highCap <==>
      exists c: Segs :: Segmented(Outcome(h, p, e, n, k).heap, c, Outcome(h, p, e, n, k).p)
  {
    hide Ends, Outcome, Segmented;
    if p.highUsage as real <= highCap {
      var c := LowBranchKeeps(h, g, p, e, highCap, lowCap, n, k);
    } else {
      forall c: Segs ensures !Segmented(Outcome(h, p, e, n, k).heap, c, Outcome(h, p, e, n, k).p) {
        LowBranchBreaks(h, g, p, e, highCap, lowCap, n, k, c);
      }
    }
  }

  // ---------------------------------------------------------------- a run that gets there

  const FULL: Segs := Segs([], [], [1])
  const FULL_POOLS: Pools := Pools(0, 0, 10, 0, 10)

  lemma NoSegs(g: Segs)
    requires Order(g) == []
    ensures g == Segs([], [], [])
  {
    assert |Order(g)| == |g.bot| + |g.low| + |g.high|;
  }

  lemma NoneGone(heap: seq<Handle>, order: seq<nat>, gone: seq<nat>, usage: int, charge: nat, capacity: nat)
    requires JustEnough(heap, order, gone, usage, charge, capacity) && (order == [] || usage + charge <= capacity)
    ensures gone == [] && Total(heap, gone) == 0
  {
    if gone != [] { NotYetFits(heap, order, gone, usage, charge, capacity); }
    TotalNone(heap);
  }

  lemma NotYetFits(heap: seq<Handle>, order: seq<nat>, gone: seq<nat>, usage: int, charge: nat, capacity: nat)
    requires JustEnough(heap, order, gone, usage, charge, capacity) && gone != []
    ensures usage + charge > capacity && order != []
  {
    TotalNone(heap);
    assert gone[..0] == [];
  }

  /** A first entry of charge 10 fills a high pool of limit 10. */
  lemma FirstLands(heap: seq<Handle>, l: Limits)
    requires |heap| == 2 && heap[1].charge == 10 && heap[1].pri.High? && l.highRatio > 0.0
    requires l.highCap >= 10.0 && l.lowCap >= 0.0
    ensures AfterAccept(heap, Segs([], [], []), [], 1, false, l) == FULL
  {
    hide Total;
    TotalOne(heap, 1);
    TotalNone(heap);
    assert PutSegs(Segs([], [], []), 1, High) == FULL;
    MaintainedIdle(heap, FULL, l.highCap, l.lowCap);
  }

  lemma FullPools(heap: seq<Handle>, p: Pools)
    requires Segmented(heap, FULL, p) && |heap| > 1 && heap[1].charge == 10
    ensures p == FULL_POOLS
  {
    hide Total;
    assert Order(FULL) == [1];
    TotalOne(heap, 1);
    TotalNone(heap);
  }

  /** From there, with the high limit lowered to 5, an entry of charge 6 goes into the low pool: the branch ends after
      one round of the first loop, which takes the new entry for the oldest one of the high pool. */
  lemma LowBranchFrom(h: seq<Handle>)
    requires Before(h, FULL, FULL_POOLS, 2) && |h| == 3 && h[2].charge == 6
    ensures 0 <= h[0].next < 3 && Ends(h, FULL_POOLS, 2, 5.0, 16.0, 1, 0)
    ensures Outcome(h, FULL_POOLS, 2, 1, 0).p == Pools(2, 0, 4, 12, 16)
    ensures forall c: Segs :: !Segmented(Outcome(h, FULL_POOLS, 2, 1, 0).heap, c, Pools(2, 0, 4, 12, 16))
  {
    hide Segmented, Total;
    PlaceOk(h, FULL, FULL_POOLS, 2);
    var w := Hooked(h, FULL_POOLS, 2);
    assert w.heap[0].next == 2 && w.heap[2].charge == 6 && w.p.highUsage == 10;
    assert HighRounds(w, 0) == w && HighRounds(w, 1) == HighRoundOf(w);
    assert LowRounds(HighRounds(w, 1), 0) == HighRounds(w, 1);
    forall c: Segs ensures !Segmented(Outcome(h, FULL_POOLS, 2, 1, 0).heap, c, Pools(2, 0, 4, 12, 16)) {
      LowBranchBreaks(h, FULL, FULL_POOLS, 2, 5.0, 16.0, 1, 0, c);
    }
  }

  /** A shard that gets there: capacity 32 with a high ratio of 5/16, an entry of charge 10 and high priority, the
      capacity lowered to 16 and then an entry of charge 6 and low priority, for which there is room.  `h` is the
      heap when LRU_Insert comes to it. */
  method LowBranchExample() returns (s: LRUCacheShard, ghost h: seq<Handle>)
    ensures s.Valid() && !s.HighWithin() && s.capacity == 16 && s.usage + 6 <= 16
    ensures s.LimitsNow() == Limits(0.3125, 1.0, 5.0, 16.0) && s.segs == FULL && s.View() == FULL_POOLS
    ensures h == s.heap + [s.NewHandle("e", 6, Low, true, 0)] && Level(h[|s.heap|], 0.3125, 1.0) == Low
    ensures Before(h, FULL, FULL_POOLS, 2) && 0 <= h[0].next < 3 && Ends(h, FULL_POOLS, 2, 5.0, 16.0, 1, 0)
    ensures forall c: Segs :: !Segmented(Outcome(h, FULL_POOLS, 2, 1, 0).heap, c, Outcome(h, FULL_POOLS, 2, 1, 0).p)
  {
    hide Segmented, Core, Others, JustEnough, AllDead, AfterAccept, Total;
    s := new LRUCacheShard(32, false, 0.3125, 1.0);
    NoSegs(s.segs);
    ghost var heap0 := s.heap;
    var st, e, gone := s.Insert("f", 10, High, false);
    NoneGone(heap0, [], gone, 0, 10, 32);
    FirstLands(s.heap, s.LimitsNow());
    ghost var heap1, usage1 := s.heap, s.usage;
    assert s.List() == [1];
    ghost var none := s.SetCapacity(16);
    NoneGone(heap1, [1], none, usage1, 0, 16);
    StaysThere(heap1, s.heap);
    FullPools(s.heap, s.View());
    h := s.heap + [s.NewHandle("e", 6, Low, true, 0)];
    GrowSegmented(s.heap, s.segs, s.View(), s.NewHandle("e", 6, Low, true, 0));
    LowBranchFrom(h);
  }

  lemma StaysThere(h: seq<Handle>, r: seq<Handle>)
    requires Others(h, r, []) && |h| == |r| == 2
    ensures r[1].charge == h[1].charge
  {
  }
}
