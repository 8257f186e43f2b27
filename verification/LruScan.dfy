/**
 The whole-cache scan: ApplyToAllEntries goes over the shards in turn, and each call of ApplyToSomeEntries
 handles a few buckets of one shard's table, which may have doubled since the call before.

 The state kept between calls is a position in the space of 64-bit numbers: the upper bits are the next bucket.
 */
module LruScan {
  import opened Basics
  import opened ClockProbe
  import opened LruTable

  const SIZE_MAX: nat := 0xFFFF_FFFF_FFFF_FFFF

  lemma SpaceIsPow2()
    ensures Pow2(64) == SIZE_MAX + 1
  {
    HashesArePow2();
    Pow2Add(32, 32);
  }

  // ---------------------------------------------------------------- positions

  function Product(a: nat, b: nat): nat {
    a * b
  }

  /** How many positions one bucket covers. */
  function Width(bits: nat): (w: nat)
    requires bits <= 64
    ensures w > 0
  {
    Pow2(64 - bits)
  }

  function Begin(state: nat, bits: nat): nat
    requires bits <= 64
  {
    Quotient(state, Width(bits))
  }

  function End(state: nat, bits: nat, perLock: nat): nat
    requires bits <= 64
  {
    var end := Begin(state, bits) + perLock;
    if end >= Pow2(bits) then Pow2(bits) else end
  }

  /** The state after one call of ApplyToSomeEntries. */
  function NextState(state: nat, bits: nat, perLock: nat): nat
    requires bits <= 64
  {
    if Begin(state, bits) + perLock >= Pow2(bits) then SIZE_MAX else Product(Begin(state, bits) + perLock, Width(bits))
  }

  /** Everything below has been handled. */
  function Frontier(state: nat): nat {
    if state == SIZE_MAX then SIZE_MAX + 1 else state
  }

  /** The position of a 32-bit hash. */
  function Position(hash: nat): nat {
    hash * Pow2(32)
  }

  /** A state that a call on a table of at most 2^bits buckets may have left. */
  predicate Aligned(state: nat, bits: nat)
    requires bits <= 64
  {
    state == Begin(state, bits) * Width(bits) && Begin(state, bits) < Pow2(bits)
  }

  // ---------------------------------------------------------------- arithmetic

  lemma QuotientOf(q: nat, m: nat, r: nat)
    requires m > 0 && r < m
    ensures Quotient(q * m + r, m) == q
  {
    ModUnique(q * m + r, m, q, r);
  }

  lemma AtLeast(x: nat, m: nat)
    requires x >= 1
    ensures x * m >= m
  {
    assert x * m == (x - 1) * m + m;
  }

  lemma MulLess(a: nat, b: nat, m: nat)
    requires a < b
    ensures a * m + m <= b * m
  {
    var d := b - a;
    assert b * m == a * m + d * m;
    AtLeast(d, m);
  }

  lemma Cancel(a: nat, b: nat, m: nat)
    requires m > 0
    ensures a <= b <==> a * m <= b * m
    ensures a < b <==> a * m < b * m
  {
    if a < b { MulLess(a, b, m); } else if b < a { MulLess(b, a, m); }
  }

  /** A quotient compares with n as its dividend does with n m. */
  lemma QuotientCompare(x: nat, m: nat, n: nat)
    requires m > 0
    ensures Quotient(x, m) < n <==> x < n * m
  {
    var q, r := x / m, x % m;
    assert x == m * q + r;
    assert q < n ==> m * (q + 1) <= m * n;
    assert q >= n ==> m * q >= m * n;
  }

  lemma QuotientScale(x: nat, p: nat, s: nat)
    requires p > 0 && s > 0
    ensures p * s > 0 && Quotient(x * s, p * s) == Quotient(x, p)
  {
    var q, r := x / p, x % p;
    assert x == p * q + r;
    assert x * s == (p * s) * q + r * s;
    assert r * s < p * s by { Cancel(r, p, s); }
    ModUnique(x * s, p * s, q, r * s);
  }

  /** The bucket of a hash is the upper bits of its position. */
  lemma PositionIndex(hash: nat, bits: nat)
    requires bits <= 32
    ensures Index(hash, bits) == Begin(Position(hash), bits)
  {
    Pow2Add(32 - bits, 32);
    QuotientScale(hash, Pow2(32 - bits), Pow2(32));
  }

  // ---------------------------------------------------------------- one call

  lemma AlignedStep(state: nat, bits: nat, perLock: nat)
    requires bits <= 64 && Aligned(state, bits)
    ensures NextState(state, bits, perLock) == SIZE_MAX || Aligned(NextState(state, bits, perLock), bits)
  {
    QuotientOf(Begin(state, bits) + perLock, Width(bits), 0);
  }

  /** Alignment survives the doubling of the table. */
  lemma AlignedGrows(state: nat, bits: nat, more: nat)
    requires bits <= more <= 64 && Aligned(state, bits)
    ensures Aligned(state, more)
  {
    var q, s := Begin(state, bits), Pow2(more - bits);
    Pow2Add(64 - more, more - bits);
    Pow2Add(bits, more - bits);
    assert (more - bits) + (64 - more) == 64 - bits && bits + (more - bits) == more;
    assert state == (q * s) * Width(more) by { Assoc(q, s, Width(more)); }
    QuotientOf(q * s, Width(more), 0);
    Cancel(q, Pow2(bits), s);
  }

  lemma Assoc(a: nat, b: nat, c: nat)
    ensures a * (c * b) == (a * b) * c
  {
  }

  lemma FrontierIs(state: nat, bits: nat, perLock: nat)
    requires bits <= 64 && Aligned(state, bits) && NextState(state, bits, perLock) != SIZE_MAX
    ensures Frontier(NextState(state, bits, perLock)) == End(state, bits, perLock) * Width(bits)
  {
  }

  lemma FrontierEnds(state: nat, bits: nat, perLock: nat)
    requires bits <= 64 && NextState(state, bits, perLock) == SIZE_MAX && Begin(state, bits) + perLock >= Pow2(bits)
    ensures Frontier(NextState(state, bits, perLock)) == End(state, bits, perLock) * Width(bits)
  {
    hide Pow2;
    SpaceIsPow2();
    Pow2Add(bits, 64 - bits);
  }

  /** A multiple of a bucket width above 1 is not SIZE_MAX, an odd number. */
  lemma NeverSizeMax(q: nat, bits: nat)
    requires bits < 64
    ensures q * Width(bits) != SIZE_MAX
  {
    var w := Pow2(63 - bits);
    assert Width(bits) == 2 * w;
    assert q * Width(bits) == 2 * (q * w);
    assert Pow2(64) == 2 * Pow2(63);
  }

  /** The call handles exactly the hashes whose positions lie between the old state and the new one. */
  lemma CallCovers(state: nat, bits: nat, perLock: nat, hash: nat)
    requires bits <= 32 && Aligned(state, bits)
    ensures Begin(state, bits) <= Index(hash, bits) < End(state, bits, perLock) <==>
      state <= Position(hash) < Frontier(NextState(state, bits, perLock))
  {
    var x, w := Position(hash), Width(bits);
    PositionIndex(hash, bits);
    QuotientCompare(x, w, Begin(state, bits));
    QuotientCompare(x, w, End(state, bits, perLock));
    if NextState(state, bits, perLock) == SIZE_MAX {
      if Begin(state, bits) + perLock < Pow2(bits) { NeverSizeMax(Begin(state, bits) + perLock, bits); }
      FrontierEnds(state, bits, perLock);
    } else {
      FrontierIs(state, bits, perLock);
    }
  }

  // ---------------------------------------------------------------- what a call passes to the callback

  /** The nodes of the buckets from i up to (not including) j, in order. */
  function Range(bs: seq<seq<Node>>, i: nat, j: nat): seq<Node>
    requires i <= j <= |bs|
  {
    if i == j then [] else Range(bs, i, j - 1) + bs[j - 1]
  }

  function Times(x: Node, xs: seq<Node>): nat {
    multiset(xs)[x]
  }

  lemma TimesConcat(x: Node, a: seq<Node>, b: seq<Node>)
    ensures Times(x, a + b) == Times(x, a) + Times(x, b)
  {
  }

  /** A node is in its own chain once, and in no other. */
  lemma {:induction false} TimesInChain(chain: seq<Node>, i: nat, bits: nat, m: Map, x: Node)
    requires bits <= 32 && ChainOk(chain, i, bits, m)
    ensures Times(x, chain) == if x in chain then 1 else 0
  {
    hide Index;
    if chain != [] {
      var n := |chain| - 1;
      assert chain == chain[..n] + [chain[n]];
      assert ChainOk(chain[..n], i, bits, m) by {
        forall j | 0 <= j < n ensures NodeOk(chain[..n][j], i, bits, m) { assert NodeOk(chain[j], i, bits, m); }
      }
      TimesInChain(chain[..n], i, bits, m, x);
      TimesConcat(x, chain[..n], [chain[n]]);
      assert chain[n] !in chain[..n];
    }
  }

  lemma {:induction false} TimesInRange(bs: seq<seq<Node>>, bits: nat, m: Map, i: nat, j: nat, x: Node)
    requires Holds(bs, bits, m) && i <= j <= |bs| && x.hash < HASHES && K(x) in m && m[K(x)] == x.id
    ensures Times(x, Range(bs, i, j)) == if i <= Index(x.hash, bits) < j then 1 else 0
  {
    hide Index, Pow2, Times;
    if i < j {
      TimesInRange(bs, bits, m, i, j - 1, x);
      TimesConcat(x, Range(bs, i, j - 1), bs[j - 1]);
      assert ChainOk(bs[j - 1], j - 1, bits, m);
      TimesInChain(bs[j - 1], j - 1, bits, m, x);
      assert Present(bs, K(x), bits, m);
      if x in bs[j - 1] { HomeChain(bs[j - 1], j - 1, bits, m, x); }
    } else {
      assert Times(x, []) == 0 by { TimesNone(x); }
    }
  }

  lemma TimesNone(x: Node)
    ensures Times(x, []) == 0
  {
  }

  lemma HomeChain(chain: seq<Node>, i: nat, bits: nat, m: Map, x: Node)
    requires bits <= 32 && ChainOk(chain, i, bits, m) && x in chain
    ensures Index(x.hash, bits) == i
  {
    var j :| 0 <= j < |chain| && chain[j] == x;
    assert NodeOk(chain[j], i, bits, m);
  }

  // ---------------------------------------------------------------- a whole scan of one shard

  /** The table as one call finds it. */
  datatype Snapshot = Snapshot(bits: nat, buckets: seq<seq<Node>>, contents: Map)

  /** Between calls the table may change in any way, but it does not shrink. */
  ghost predicate Calls(snaps: seq<Snapshot>) {
    && (forall t: nat :: t < |snaps| ==> SnapOk(snaps[t]))
    && (forall t: nat :: t + 1 < |snaps| ==> snaps[t].bits <= snaps[t + 1].bits)
  }

  ghost predicate SnapOk(s: Snapshot) {
    s.bits <= 31 && Holds(s.buckets, s.bits, s.contents)
  }

  /** The states of a scan that makes one call per snapshot, none of them the last but the last. */
  ghost predicate Scan(snaps: seq<Snapshot>, states: seq<nat>, perLock: nat) {
    && |states| == |snaps| + 1 && states[0] == 0 && Calls(snaps)
    && forall t: nat {:trigger snaps[t]} :: t < |snaps| ==>
         snaps[t].bits <= 31 && states[t] != SIZE_MAX && states[t + 1] == NextState(states[t], snaps[t].bits, perLock)
  }

  /** How often the calls up to the n-th pass x to the callback. */
  ghost function Passed(snaps: seq<Snapshot>, states: seq<nat>, perLock: nat, x: Node, n: nat): nat
    requires Scan(snaps, states, perLock) && n <= |snaps|
  {
    if n == 0 then 0 else
      assert SnapOk(snaps[n - 1]);
      Passed(snaps, states, perLock, x, n - 1) +
      Times(x, CallRange(snaps[n - 1], states[n - 1], perLock))
  }

  /** What one call goes over. */
  function CallRange(s: Snapshot, state: nat, perLock: nat): seq<Node>
    requires SnapOk(s)
  {
    var i, j := Begin(state, s.bits), End(state, s.bits, perLock);
    if i <= j <= |s.buckets| then Range(s.buckets, i, j) else []
  }

  lemma {:induction false} StatesAligned(snaps: seq<Snapshot>, states: seq<nat>, perLock: nat, t: nat)
    requires Scan(snaps, states, perLock) && t < |snaps|
    ensures snaps[t].bits <= 31 && Aligned(states[t], snaps[t].bits)
  {
    hide Aligned, NextState, Holds;
    if t == 0 {
      AlignedZero(snaps[0].bits);
    } else {
      StatesAligned(snaps, states, perLock, t - 1);
      assert states[t - 1 + 1] == NextState(states[t - 1], snaps[t - 1].bits, perLock);
      assert snaps[t].bits <= 31 && states[t] != SIZE_MAX;
      assert snaps[t - 1].bits <= snaps[t - 1 + 1].bits;
      AlignedStep(states[t - 1], snaps[t - 1].bits, perLock);
      AlignedGrows(states[t], snaps[t - 1].bits, snaps[t].bits);
    }
  }

  lemma AlignedZero(bits: nat)
    requires bits <= 64
    ensures Aligned(0, bits)
  {
    QuotientOf(0, Width(bits), 0);
  }

  predicate Stays(s: Snapshot, x: Node) {
    K(x) in s.contents && s.contents[K(x)] == x.id
  }

  lemma CallPasses(s: Snapshot, state: nat, perLock: nat, x: Node)
    requires SnapOk(s) && Aligned(state, s.bits) && state != SIZE_MAX && x.hash < HASHES && Stays(s, x)
    ensures Times(x, CallRange(s, state, perLock)) ==
      if state <= Position(x.hash) < Frontier(NextState(state, s.bits, perLock)) then 1 else 0
  {
    hide Index, Width, Holds, NextState, Position, Frontier, Pow2;
    HoldsSize(s.buckets, s.bits, s.contents);
    CallCovers(state, s.bits, perLock, x.hash);
    TimesInRange(s.buckets, s.bits, s.contents, Begin(state, s.bits), End(state, s.bits, perLock), x);
  }

  lemma FrontierGrows(state: nat, bits: nat, perLock: nat)
    requires bits <= 63 && Aligned(state, bits) && state != SIZE_MAX
    ensures Frontier(NextState(state, bits, perLock)) >= Frontier(state) == state
  {
    hide Pow2;
    SpaceIsPow2();
    var q, w := Begin(state, bits), Width(bits);
    Cancel(q, q + perLock, w);
    Pow2Add(bits, 64 - bits);
    Cancel(q, Pow2(bits), w);
  }

  /** After n calls x has been passed once if its position is behind the frontier, and not at all otherwise. */
  lemma {:induction false} PassedBehind(snaps: seq<Snapshot>, states: seq<nat>, perLock: nat, x: Node, n: nat)
    requires Scan(snaps, states, perLock) && n <= |snaps| && x.hash < HASHES
    requires forall t: nat :: t < n ==> Stays(snaps[t], x)
    ensures Passed(snaps, states, perLock, x, n) == if Position(x.hash) < Frontier(states[n]) then 1 else 0
  {
    hide NextState, Position, Aligned, Holds, Pow2, Passed, CallRange, Times, Frontier;
    if n == 0 {
      FrontierZero();
      PassedNone(snaps, states, perLock, x);
    } else {
      PassedBehind(snaps, states, perLock, x, n - 1);
      StatesAligned(snaps, states, perLock, n - 1);
      assert SnapOk(snaps[n - 1]) && states[n - 1 + 1] == NextState(states[n - 1], snaps[n - 1].bits, perLock);
      PassedMore(snaps, states, perLock, x, n);
      CallPasses(snaps[n - 1], states[n - 1], perLock, x);
      FrontierGrows(states[n - 1], snaps[n - 1].bits, perLock);
    }
  }

  lemma PassedNone(snaps: seq<Snapshot>, states: seq<nat>, perLock: nat, x: Node)
    requires Scan(snaps, states, perLock)
    ensures Passed(snaps, states, perLock, x, 0) == 0
  {
  }

  lemma PassedMore(snaps: seq<Snapshot>, states: seq<nat>, perLock: nat, x: Node, n: nat)
    requires Scan(snaps, states, perLock) && 0 < n <= |snaps|
    ensures SnapOk(snaps[n - 1])
    ensures Passed(snaps, states, perLock, x, n) ==
      Passed(snaps, states, perLock, x, n - 1) + Times(x, CallRange(snaps[n - 1], states[n - 1], perLock))
  {
    hide Times, CallRange, Holds;
  }

  lemma FrontierZero()
    ensures Frontier(0) == 0
  {
    Pow2Add(1, 63);
  }

  /** A finished scan has passed every entry that stayed in the table to the callback, exactly once, however
      often the table doubled between calls. */
  lemma ScanPassesOnce(snaps: seq<Snapshot>, states: seq<nat>, perLock: nat, x: Node)
    requires Scan(snaps, states, perLock) && states[|snaps|] == SIZE_MAX && x.hash < HASHES
    requires forall t: nat :: t < |snaps| ==> Stays(snaps[t], x)
    ensures Passed(snaps, states, perLock, x, |snaps|) == 1
  {
    hide Pow2, Passed, Scan;
    HashesArePow2();
    SpaceIsPow2();
    PassedBehind(snaps, states, perLock, x, |snaps|);
    Pow2Add(32, 32);
    Cancel(x.hash, Pow2(32), Pow2(32));
  }

  // ---------------------------------------------------------------- the loops

  /** One call on one shard. */
  method ApplyToSomeEntries(table: LRUHandleTable, perLock: nat, state: nat) returns (next: nat, passed: seq<Node>)
    requires table.Valid() && Aligned(state, table.bits)
    ensures next == NextState(state, table.bits, perLock)
    ensures passed == CallRange(Snapshot(table.bits, table.list[..], table.contents), state, perLock)
  {
    hide Holds, Pow2, Width;
    var length := Pow2(table.bits);
    HoldsSize(table.list[..], table.bits, table.contents);
    var begin := Begin(state, table.bits);
    var end := begin + perLock;
    if end >= length {
      end := length;
      next := SIZE_MAX;
    } else {
      next := Product(end, Width(table.bits));
    }
    passed := [];
    for i := begin to end
      invariant passed == Range(table.list[..], begin, i)
    {
      for j := 0 to |table.list[i]|
        invariant passed == Range(table.list[..], begin, i) + table.list[i][..j]
      {
        passed := passed + [table.list[i][j]];
        assert table.list[i][..j + 1] == table.list[i][..j] + [table.list[i][j]];
      }
      assert table.list[i][..|table.list[i]|] == table.list[i];
    }
  }

  /** The state of shard i after r rounds, when its table has 2^growth(r, i) buckets in round r. */
  function StateAt(growth: (nat, nat) -> nat, perLock: nat, i: nat, r: nat): nat
    requires forall q: nat, h: nat :: growth(q, h) <= 31
  {
    if r == 0 then 0 else
      var s := StateAt(growth, perLock, i, r - 1);
      if s == SIZE_MAX then SIZE_MAX else NextState(s, growth(r - 1, i), perLock)
  }

  /** Tables do not shrink, and 31 bits is as far as they grow. */
  ghost predicate Growing(growth: (nat, nat) -> nat) {
    && (forall r: nat, i: nat :: growth(r, i) <= 31)
    && (forall q: nat, r: nat, i: nat :: q <= r ==> growth(q, i) <= growth(r, i))
  }

  lemma {:induction false} StateAligned(growth: (nat, nat) -> nat, perLock: nat, i: nat, r: nat)
    requires Growing(growth)
    ensures StateAt(growth, perLock, i, r) != SIZE_MAX ==> Aligned(StateAt(growth, perLock, i, r), growth(r, i))
  {
    hide Aligned, NextState;
    if r == 0 {
      AlignedZero(growth(0, i));
    } else {
      StateAligned(growth, perLock, i, r - 1);
      var s := StateAt(growth, perLock, i, r - 1);
      assert growth(r - 1, i) <= growth(r, i);
      if s != SIZE_MAX {
        AlignedStep(s, growth(r - 1, i), perLock);
        var n := NextState(s, growth(r - 1, i), perLock);
        if n != SIZE_MAX { AlignedGrows(n, growth(r - 1, i), growth(r, i)); }
      }
    }
  }

  lemma WidthAtLeast(bits: nat)
    requires bits <= 31
    ensures Width(bits) >= Pow2(33)
  {
    hide Pow2;
    Pow2Add(31 - bits, 33);
    assert 31 - bits + 33 == 64 - bits;
    AtLeast(Pow2(31 - bits), Pow2(33));
  }

  lemma AdvanceBy(q: nat, k: nat, w: nat, d: nat)
    requires k >= 1 && w >= d
    ensures (q + k) * w >= q * w + d
  {
    assert (q + k) * w == q * w + k * w;
    AtLeast(k, w);
  }

  /** Each call handles at least one bucket, and there are never more than 2^31. */
  lemma CallAdvances(state: nat, bits: nat, perLock: nat)
    requires bits <= 31 && Aligned(state, bits) && state != SIZE_MAX && perLock >= 1
    ensures Frontier(NextState(state, bits, perLock)) >= state + Pow2(33) || NextState(state, bits, perLock) == SIZE_MAX
  {
    hide Width, Pow2;
    WidthAtLeast(bits);
    AdvanceBy(Begin(state, bits), perLock, Width(bits), Pow2(33));
  }

  lemma {:induction false} RoundsBound(growth: (nat, nat) -> nat, perLock: nat, i: nat, r: nat)
    requires Growing(growth) && perLock >= 1
    ensures StateAt(growth, perLock, i, r) == SIZE_MAX || StateAt(growth, perLock, i, r) >= r * Pow2(33)
    ensures r >= Pow2(31) ==> StateAt(growth, perLock, i, r) == SIZE_MAX
  {
    hide Aligned, NextState, Pow2;
    var s := StateAt(growth, perLock, i, r);
    if r > 0 {
      RoundsBound(growth, perLock, i, r - 1);
      var p := StateAt(growth, perLock, i, r - 1);
      if p != SIZE_MAX {
        StateAligned(growth, perLock, i, r - 1);
        CallAdvances(p, growth(r - 1, i), perLock);
        assert r * Pow2(33) == (r - 1) * Pow2(33) + Pow2(33);
      }
    }
    StateAligned(growth, perLock, i, r);
    if s != SIZE_MAX && r >= Pow2(31) {
      AlignedBelow(s, growth(r, i));
      Pow2Add(31, 33);
      Cancel(Pow2(31), r, Pow2(33));
      assert false;
    }
  }

  lemma AlignedBelow(state: nat, bits: nat)
    requires bits <= 64 && Aligned(state, bits)
    ensures state < Pow2(64)
  {
    Pow2Add(bits, 64 - bits);
    Cancel(Begin(state, bits), Pow2(bits), Width(bits));
  }

  /** ApplyToAllEntries caps the entries per lock at 1 (std::min with 1), so a value of 0 is the only one that
      matters: the scan then never moves, for ever. */
  function PerLock(option: nat): nat {
    if option < 1 then option else 1
  }

  lemma {:induction false} ZeroNeverMoves(growth: (nat, nat) -> nat, i: nat, r: nat)
    requires Growing(growth)
    ensures StateAt(growth, PerLock(0), i, r) == 0 != SIZE_MAX
  {
    Pow2Add(1, 63);
    if r > 0 {
      ZeroNeverMoves(growth, i, r - 1);
      QuotientOf(0, Width(growth(r - 1, i)), 0);
    }
  }

  /** Where bucket r begins. */
  lemma BucketBegins(r: nat, bits: nat)
    requires bits <= 31 && r < Pow2(bits)
    ensures Begin(Product(r, Width(bits)), bits) == r && Product(r, Width(bits)) != SIZE_MAX
  {
    hide Width, Pow2;
    QuotientOf(r, Width(bits), 0);
    WidthAtLeast(bits);
    Pow2Add(bits, 64 - bits);
    SpaceIsPow2();
    MulLess(r, Pow2(bits), Width(bits));
    assert Width(bits) == Pow2(64 - bits) by { WidthIs(bits); }
    TwiceTheHashes();
  }

  lemma NextBucket(state: nat, bits: nat, r: nat)
    requires bits <= 64 && Begin(state, bits) == r
    ensures NextState(state, bits, 1) == if r + 1 >= Pow2(bits) then SIZE_MAX else Product(r + 1, Width(bits))
  {
  }

  lemma TwiceTheHashes()
    ensures Pow2(33) == 2 * HASHES
  {
    HashesArePow2();
  }

  lemma WidthIs(bits: nat)
    requires bits <= 64
    ensures Width(bits) == Pow2(64 - bits)
  {
  }

  /** So a call that moves at all goes over one bucket, whatever the option, and a scan of a table that does not grow
      takes as many rounds as there are buckets. */
  lemma {:induction false} OneBucketPerCall(growth: (nat, nat) -> nat, option: nat, i: nat, r: nat)
    requires Growing(growth) && option >= 1 && forall q: nat :: growth(q, i) == growth(0, i)
    ensures r < Pow2(growth(0, i)) ==>
      && StateAt(growth, PerLock(option), i, r) == Product(r, Width(growth(0, i))) != SIZE_MAX
      && Begin(StateAt(growth, PerLock(option), i, r), growth(0, i)) == r
      && End(StateAt(growth, PerLock(option), i, r), growth(0, i), PerLock(option)) == r + 1
    ensures r >= Pow2(growth(0, i)) ==> StateAt(growth, PerLock(option), i, r) == SIZE_MAX
  {
    hide Width, Pow2, NextState;
    hide StateAt;
    var bits := growth(0, i);
    if r < Pow2(bits) { BucketBegins(r, bits); }
    if r == 0 {
      StateZero(growth, PerLock(option), i);
    } else {
      OneBucketPerCall(growth, option, i, r - 1);
      StateStep(growth, PerLock(option), i, r - 1);
      assert growth(r - 1, i) == bits;
      if r - 1 < Pow2(bits) { NextBucket(StateAt(growth, PerLock(option), i, r - 1), bits, r - 1); }
    }
  }

  /** Every shard's scan is finished after r rounds. */
  ghost predicate AllFinished(growth: (nat, nat) -> nat, perLock: nat, shards: nat, r: nat)
    requires Growing(growth)
  {
    forall i: nat :: i < shards ==> StateAt(growth, perLock, i, r) == SIZE_MAX
  }

  /** So the rotation over the shards ends if and only if the option is at least 1. */
  lemma ScanEndsIff(growth: (nat, nat) -> nat, shards: nat, option: nat)
    requires Growing(growth) && shards > 0
    ensures (exists r: nat :: AllFinished(growth, PerLock(option), shards, r)) <==> option >= 1
  {
    hide StateAt, Pow2;
    if option >= 1 {
      forall i: nat | i < shards ensures StateAt(growth, PerLock(option), i, Pow2(31)) == SIZE_MAX {
        RoundsBound(growth, PerLock(option), i, Pow2(31));
      }
      assert AllFinished(growth, PerLock(option), shards, Pow2(31));
    } else {
      forall r: nat ensures !AllFinished(growth, PerLock(option), shards, r) {
        ZeroNeverMoves(growth, 0, r);
      }
    }
  }

  lemma StateZero(growth: (nat, nat) -> nat, perLock: nat, i: nat)
    requires Growing(growth)
    ensures StateAt(growth, perLock, i, 0) == 0
  {
  }

  lemma StateStep(growth: (nat, nat) -> nat, perLock: nat, i: nat, t: nat)
    requires Growing(growth)
    ensures var s := StateAt(growth, perLock, i, t);
      StateAt(growth, perLock, i, t + 1) == if s == SIZE_MAX then SIZE_MAX else NextState(s, growth(t, i), perLock)
  {
  }

  function StatesUpTo(growth: (nat, nat) -> nat, perLock: nat, i: nat, n: nat): seq<nat>
    requires forall q: nat, h: nat :: growth(q, h) <= 31
  {
    seq(n + 1, t requires 0 <= t <= n => StateAt(growth, perLock, i, t))
  }

  /** Shard i's part of the rotating scan is a scan of its table, as the calls find it. */
  lemma ShardScans(growth: (nat, nat) -> nat, perLock: nat, i: nat, n: nat, snaps: seq<Snapshot>)
    requires Growing(growth) && |snaps| == n && Calls(snaps)
    requires forall t: nat :: t < n ==> StateAt(growth, perLock, i, t) != SIZE_MAX && snaps[t].bits == growth(t, i)
    ensures Scan(snaps, StatesUpTo(growth, perLock, i, n), perLock)
  {
    hide NextState, Pow2, Holds, Calls, StateAt;
    StateZero(growth, perLock, i);
    var states := StatesUpTo(growth, perLock, i, n);
    forall t: nat | t < |snaps|
      ensures snaps[t].bits <= 31 && states[t] != SIZE_MAX
      ensures states[t + 1] == NextState(states[t], snaps[t].bits, perLock)
    {
      assert StateAt(growth, perLock, i, t) != SIZE_MAX;
      StateStep(growth, perLock, i, t);
    }
  }

  /** What stays in a shard's table while it is being scanned is passed to the callback exactly once. */
  lemma ShardPassesOnce(growth: (nat, nat) -> nat, perLock: nat, i: nat, n: nat, snaps: seq<Snapshot>, x: Node)
    requires Growing(growth) && |snaps| == n && Calls(snaps)
    requires StateAt(growth, perLock, i, n) == SIZE_MAX
    requires forall t: nat :: t < n ==> StateAt(growth, perLock, i, t) != SIZE_MAX && snaps[t].bits == growth(t, i)
    requires x.hash < HASHES && forall t: nat :: t < n ==> Stays(snaps[t], x)
    ensures Scan(snaps, StatesUpTo(growth, perLock, i, n), perLock)
    ensures Passed(snaps, StatesUpTo(growth, perLock, i, n), perLock, x, n) == 1
  {
    hide Scan, Pow2, Calls, NextState;
    ShardScans(growth, perLock, i, n, snaps);
    ScanPassesOnce(snaps, StatesUpTo(growth, perLock, i, n), perLock, x);
  }

  // ---------------------------------------------------------------- the whole cache

  /** What the calls find: tables(r, i) is shard i's table in round r. */
  ghost predicate Served(tables: (nat, nat) -> Snapshot) {
    && (forall r: nat, i: nat :: SnapOk(tables(r, i)))
    && (forall q: nat, r: nat, i: nat :: q <= r ==> tables(q, i).bits <= tables(r, i).bits)
  }

  function Bits(tables: (nat, nat) -> Snapshot): (nat, nat) -> nat {
    (r: nat, i: nat) => tables(r, i).bits
  }

  lemma ServedGrows(tables: (nat, nat) -> Snapshot)
    requires Served(tables)
    ensures Growing(Bits(tables))
  {
    hide Holds;
    forall r: nat, i: nat ensures Bits(tables)(r, i) <= 31 { assert SnapOk(tables(r, i)); }
  }

  /** Shard i's state before round r. */
  ghost function State(tables: (nat, nat) -> Snapshot, perLock: nat, i: nat, r: nat): nat
    requires Served(tables)
  {
    ServedGrows(tables);
    StateAt(Bits(tables), perLock, i, r)
  }

  /** What the callback gets from shard i in the first r rounds. */
  ghost function ShardLog(tables: (nat, nat) -> Snapshot, perLock: nat, i: nat, r: nat): seq<Node>
    requires Served(tables)
  {
    if r == 0 then [] else
      var s := State(tables, perLock, i, r - 1);
      ShardLog(tables, perLock, i, r - 1) +
      if s == SIZE_MAX then [] else CallRange(tables(r - 1, i), s, perLock)
  }

  lemma StateMoves(tables: (nat, nat) -> Snapshot, perLock: nat, i: nat, r: nat)
    requires Served(tables)
    ensures SnapOk(tables(r, i)) && State(tables, perLock, i, 0) == 0
    ensures var s := State(tables, perLock, i, r);
      State(tables, perLock, i, r + 1) == if s == SIZE_MAX then SIZE_MAX else NextState(s, tables(r, i).bits, perLock)
  {
    hide Holds, StateAt, NextState;
    ServedGrows(tables);
    StateZero(Bits(tables), perLock, i);
    StateStep(Bits(tables), perLock, i, r);
  }

  lemma LogMoves(tables: (nat, nat) -> Snapshot, perLock: nat, i: nat, r: nat)
    requires Served(tables)
    ensures SnapOk(tables(r, i)) && ShardLog(tables, perLock, i, 0) == []
    ensures var s := State(tables, perLock, i, r);
      ShardLog(tables, perLock, i, r + 1) ==
      ShardLog(tables, perLock, i, r) + if s == SIZE_MAX then [] else CallRange(tables(r, i), s, perLock)
  {
    hide Holds, State, CallRange;
  }

  lemma RoundsSuffice(tables: (nat, nat) -> Snapshot, perLock: nat, i: nat, r: nat)
    requires Served(tables) && perLock >= 1
    ensures r >= Pow2(31) ==> State(tables, perLock, i, r) == SIZE_MAX
  {
    hide Holds, Pow2, StateAt;
    ServedGrows(tables);
    RoundsBound(Bits(tables), perLock, i, r);
  }

  /** Shard h stands at round r: its state, and what it has passed to the callback. */
  ghost predicate StandsAt(tables: (nat, nat) -> Snapshot, perLock: nat, h: nat, r: nat, state: nat, log: seq<Node>)
    requires Served(tables)
  {
    state == State(tables, perLock, h, r) && log == ShardLog(tables, perLock, h, r)
  }

  lemma StandsFirst(tables: (nat, nat) -> Snapshot, perLock: nat, h: nat)
    requires Served(tables)
    ensures StandsAt(tables, perLock, h, 0, 0, [])
  {
    hide Holds;
    StateMoves(tables, perLock, h, 0);
  }

  /** One call, or none if the shard's scan is finished. */
  method Visit(table: Snapshot, perLock: nat, state: nat, log: seq<Node>, ghost tables: (nat, nat) -> Snapshot,
               ghost i: nat, ghost r: nat) returns (next: nat, more: seq<Node>)
    requires Served(tables) && table == tables(r, i) && StandsAt(tables, perLock, i, r, state, log)
    ensures StandsAt(tables, perLock, i, r + 1, next, more)
  {
    hide Holds, State, ShardLog, CallRange, NextState;
    StateMoves(tables, perLock, i, r);
    LogMoves(tables, perLock, i, r);
    next, more := state, log;
    if state != SIZE_MAX {
      more := log + CallRange(table, state, perLock);
      next := NextState(state, table.bits, perLock);
    }
  }

  /** The rotating loop over the shards.  It ends, after at most 2^31 + 1 rounds, with every shard's scan finished;
      `passed` is what the callback got from each shard. */
  method ApplyToAllEntries(shards: nat, option: nat, tables: (nat, nat) -> Snapshot)
    returns (rounds: nat, passed: seq<seq<Node>>)
    requires Served(tables) && option >= 1
    ensures rounds <= Pow2(31) + 1 && |passed| == shards
    ensures forall i: nat :: i < shards ==> StandsAt(tables, PerLock(option), i, rounds, SIZE_MAX, passed[i])
  {
    hide Pow2, Served, StandsAt;
    var perLock := PerLock(option);
    var states: seq<nat> := seq(shards, _ => 0);
    passed := seq(shards, _ => []);
    rounds := 0;
    forall i: nat | i < shards ensures StandsAt(tables, perLock, i, 0, states[i], passed[i]) {
      StandsFirst(tables, perLock, i);
    }
    var remaining := true;
    while remaining
      invariant |states| == |passed| == shards
      invariant forall i: nat :: i < shards ==> StandsAt(tables, perLock, i, rounds, states[i], passed[i])
      invariant !remaining ==> forall i: nat :: i < shards ==> states[i] == SIZE_MAX
      invariant rounds <= Pow2(31) + if remaining then 0 else 1
      decreases Pow2(31) + 1 - rounds, remaining
    {
      states, passed, remaining := Rotate(states, passed, perLock, tables, rounds);
      rounds := rounds + 1;
    }
  }

  /** One round over all shards. */
  method Rotate(states: seq<nat>, passed: seq<seq<Node>>, perLock: nat, tables: (nat, nat) -> Snapshot, r: nat)
    returns (after: seq<nat>, logs: seq<seq<Node>>, remaining: bool)
    requires Served(tables) && |states| == |passed| && perLock >= 1
    requires forall i: nat :: i < |states| ==> StandsAt(tables, perLock, i, r, states[i], passed[i])
    ensures |after| == |logs| == |states|
    ensures forall i: nat :: i < |states| ==> StandsAt(tables, perLock, i, r + 1, after[i], logs[i])
    ensures if remaining then r + 1 < Pow2(31) else forall i: nat :: i < |states| ==> after[i] == SIZE_MAX
  {
    hide Pow2, Served, StandsAt;
    after, logs, remaining := states, passed, false;
    for i := 0 to |states|
      invariant |after| == |logs| == |states|
      invariant forall h: nat :: h < i ==> StandsAt(tables, perLock, h, r + 1, after[h], logs[h])
      invariant forall h: nat :: i <= h < |states| ==> after[h] == states[h] && logs[h] == passed[h]
      invariant if remaining then r + 1 < Pow2(31) else forall h: nat :: h < i ==> after[h] == SIZE_MAX
    {
      var next, more := Visit(tables(r, i), perLock, after[i], logs[i], tables, i, r);
      after, logs := after[i := next], logs[i := more];
      StillOpen(tables, perLock, i, r + 1, next, more);
      remaining := remaining || next != SIZE_MAX;
    }
  }

  lemma StillOpen(tables: (nat, nat) -> Snapshot, perLock: nat, i: nat, r: nat, state: nat, log: seq<Node>)
    requires Served(tables) && perLock >= 1 && StandsAt(tables, perLock, i, r, state, log)
    ensures state != SIZE_MAX ==> r < Pow2(31)
  {
    hide Pow2, State, ShardLog, Served;
    RoundsSuffice(tables, perLock, i, r);
  }

  // ---------------------------------------------------------------- exactly once

  /** The round in which shard i's scan finishes, if it is finished before round r. */
  ghost function FinishedIn(tables: (nat, nat) -> Snapshot, perLock: nat, i: nat, r: nat): (n: nat)
    requires Served(tables) && State(tables, perLock, i, r) == SIZE_MAX
    ensures n <= r && State(tables, perLock, i, n) == SIZE_MAX
    ensures forall t: nat :: t < n ==> State(tables, perLock, i, t) != SIZE_MAX
    ensures ShardLog(tables, perLock, i, r) == ShardLog(tables, perLock, i, n)
  {
    if r > 0 && State(tables, perLock, i, r - 1) == SIZE_MAX then
      LogMoves(tables, perLock, i, r - 1);
      FinishedIn(tables, perLock, i, r - 1)
    else
      StaysOpen(tables, perLock, i, r);
      r
  }

  /** A scan that is not finished was not finished before. */
  lemma {:induction false} StaysOpen(tables: (nat, nat) -> Snapshot, perLock: nat, i: nat, r: nat)
    requires Served(tables) && (r > 0 ==> State(tables, perLock, i, r - 1) != SIZE_MAX)
    ensures forall t: nat :: t < r ==> State(tables, perLock, i, t) != SIZE_MAX
  {
    hide Holds, State;
    if r > 1 {
      StateMoves(tables, perLock, i, r - 2);
      assert r - 2 + 1 == r - 1;
      StaysOpen(tables, perLock, i, r - 1);
    }
  }

  function Snaps(tables: (nat, nat) -> Snapshot, i: nat, n: nat): seq<Snapshot> {
    seq(n, t requires 0 <= t < n => tables(t, i))
  }

  /** The log counts what the calls pass. */
  lemma {:induction false} LogCounts(tables: (nat, nat) -> Snapshot, perLock: nat, i: nat, n: nat, m: nat, x: Node)
    requires Served(tables) && m <= n
    requires forall t: nat :: t < n ==> State(tables, perLock, i, t) != SIZE_MAX
    requires Growing(Bits(tables))
    requires Scan(Snaps(tables, i, n), StatesUpTo(Bits(tables), perLock, i, n), perLock)
    ensures Times(x, ShardLog(tables, perLock, i, m)) ==
      Passed(Snaps(tables, i, n), StatesUpTo(Bits(tables), perLock, i, n), perLock, x, m)
  {
    hide Holds, Scan, Passed, ShardLog, Times, CallRange, StateAt;
    var snaps, states := Snaps(tables, i, n), StatesUpTo(Bits(tables), perLock, i, n);
    if m == 0 {
      PassedNone(snaps, states, perLock, x);
      TimesNone(x);
      LogMoves(tables, perLock, i, 0);
    } else {
      LogCounts(tables, perLock, i, n, m - 1, x);
      PassedMore(snaps, states, perLock, x, m);
      LogMoves(tables, perLock, i, m - 1);
      var s := State(tables, perLock, i, m - 1);
      TimesConcat(x, ShardLog(tables, perLock, i, m - 1), CallRange(tables(m - 1, i), s, perLock));
    }
  }

  lemma SnapsOk(tables: (nat, nat) -> Snapshot, i: nat, n: nat)
    requires Served(tables)
    ensures Calls(Snaps(tables, i, n))
  {
    hide Holds;
  }

  /** Every entry that stays in a shard's table throughout is passed to the callback exactly once, whatever happens to
      the tables otherwise. */
  lemma CachePassesOnce(tables: (nat, nat) -> Snapshot, perLock: nat, i: nat, rounds: nat, log: seq<Node>, x: Node)
    requires Served(tables) && StandsAt(tables, perLock, i, rounds, SIZE_MAX, log) && x.hash < HASHES
    requires forall r: nat :: r < rounds ==> Stays(tables(r, i), x)
    ensures Times(x, log) == 1
  {
    hide Holds, Calls, Scan, Passed, ShardLog, Times, StateAt, Served;
    var n := FinishedIn(tables, perLock, i, rounds);
    ServedGrows(tables);
    SnapsOk(tables, i, n);
    forall t: nat | t < n
      ensures StateAt(Bits(tables), perLock, i, t) != SIZE_MAX && Snaps(tables, i, n)[t].bits == Bits(tables)(t, i)
    {
      assert State(tables, perLock, i, t) != SIZE_MAX;
    }
    ShardPassesOnce(Bits(tables), perLock, i, n, Snaps(tables, i, n), x);
    LogCounts(tables, perLock, i, n, n, x);
  }
}
