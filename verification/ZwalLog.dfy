/**
 The whole way of a write-ahead log: what SparseAppend appended, interval by interval, is stored by the device in
 any order within each interval, and TryRecoverWAL reads it back chunk by chunk.
 */
module ZwalLog {
  import opened Basics
  import opened Coding
  import opened ZwalRecovery
  import opened ZwalAppend

  /** What a ZoneFile has appended. */
  ghost predicate LogOk(groups: seq<seq<Entry>>, barrier: nat) {
    && groups != [] && 0 < barrier < 0x1_0000_0000 && Filled(groups, barrier)
    && |Image(groups[|groups| - 1])| <= barrier
    && Consecutive(Flat(groups)) && NoneEmpty(Flat(groups)) && |Flat(groups)| < Pow256(8)
  }

  /** The file's own invariant says so, as long as its numbers fit. */
  lemma FileLogOk(f: ZoneFile)
    requires f.Valid() && f.barrier < 0x1_0000_0000 && f.sequence < Pow256(8)
    ensures LogOk(f.groups, f.barrier)
  {
    hide Image, Flat, Pow256;
  }

  /** The device stores each interval's entries in some order. */
  predicate Arranged(groups: seq<seq<Entry>>, orders: seq<seq<Entry>>) {
    |orders| == |groups| && forall k :: 0 <= k < |groups| ==> multiset(orders[k]) == multiset(groups[k])
  }

  function Device(orders: seq<seq<Entry>>): Bytes {
    if orders == [] then [] else Device(orders[..|orders| - 1]) + Image(orders[|orders| - 1])
  }

  /** Chunk k of the device: between two multiples of the barrier size, and before the write head. */
  function Chunk(device: Bytes, barrier: nat, k: nat): Bytes {
    var lo, hi := Min(k * barrier, |device|), Min((k + 1) * barrier, |device|);
    if lo < hi then device[lo..hi] else []
  }

  predicate ChunkReads(device: Bytes, barrier: nat, k: nat, es: seq<Entry>) {
    var read := Parse(Chunk(device, barrier, k), 0, k == 0);
    read.Some? && IsSorting(es, read.value)
  }

  /** Reading the device chunk by chunk gives the groups back. */
  predicate ReadsAs(device: Bytes, barrier: nat, groups: seq<seq<Entry>>) {
    forall k: nat :: k < |groups| ==> ChunkReads(device, barrier, k, groups[k])
  }

  // ---------------------------------------------------------------- chunks are intervals

  lemma ImageTakenOut(es: seq<Entry>, j: nat)
    requires j < |es|
    ensures |Image(es)| == |Frame(es[j])| + |Image(es[..j] + es[j + 1..])|
    ensures multiset(es[..j] + es[j + 1..]) == multiset(es) - multiset{es[j]}
  {
    hide Frame;
    assert es == es[..j] + [es[j]] + es[j + 1..];
    ImageAround(es[..j], es[j], es[j + 1..]);
    ImageConcat(es[..j], es[j + 1..]);
  }

  lemma FoundIn(a: seq<Entry>, b: seq<Entry>) returns (j: nat)
    requires multiset(a) == multiset(b) && a != []
    ensures j < |b| && b[j] == a[0]
  {
    assert a[0] in multiset(b);
    j :| 0 <= j < |b| && b[j] == a[0];
  }

  /** How much the frames take does not depend on their order. */
  lemma {:induction false} ImageSize(a: seq<Entry>, b: seq<Entry>)
    requires multiset(a) == multiset(b)
    ensures |Image(a)| == |Image(b)|
    decreases |a|
  {
    hide Frame, Image;
    if a == [] {
      assert |b| == |multiset(b)| == 0;
    } else {
      var j := FoundIn(a, b);
      ImageTakenOut(a, 0);
      ImageTakenOut(b, j);
      var c, d := a[..0] + a[1..], b[..j] + b[j + 1..];
      assert |c| == |a| - 1;
      ImageSize(c, d);
    }
  }

  /** All intervals but the last are full. */
  predicate Full(orders: seq<seq<Entry>>, barrier: nat) {
    && (forall k :: 0 <= k < |orders| - 1 ==> |Image(orders[k])| == barrier)
    && (orders != [] ==> |Image(orders[|orders| - 1])| <= barrier)
  }

  lemma ArrangedFull(groups: seq<seq<Entry>>, orders: seq<seq<Entry>>, barrier: nat)
    requires LogOk(groups, barrier) && Arranged(groups, orders)
    ensures Full(orders, barrier)
  {
    hide Image, Flat;
    forall k | 0 <= k < |groups| ensures |Image(orders[k])| == |Image(groups[k])| { ImageSize(orders[k], groups[k]); }
  }

  lemma {:induction false} DeviceSize(orders: seq<seq<Entry>>, barrier: nat)
    requires Full(orders, barrier) && orders != []
    ensures |Device(orders)| == (|orders| - 1) * barrier + |Image(orders[|orders| - 1])|
  {
    hide Image;
    var n := |orders| - 1;
    if n > 0 {
      assert forall k :: 0 <= k < n ==> orders[..n][k] == orders[k];
      DeviceSize(orders[..n], barrier);
      assert |Device(orders[..n])| == (n - 1) * barrier + barrier == n * barrier;
    } else {
      assert orders[..0] == [] && Device(orders[..0]) == [];
    }
  }

  /** Chunk k is what the device stored of interval k. */
  lemma {:induction false} ChunkIsImage(orders: seq<seq<Entry>>, barrier: nat, k: nat)
    requires Full(orders, barrier) && k < |orders| && barrier > 0
    ensures Chunk(Device(orders), barrier, k) == Image(orders[k])
  {
    hide Image;
    var n := |orders| - 1;
    DeviceSize(orders, barrier);
    if k == n {
      LastChunk(orders, barrier);
    } else {
      assert forall i :: 0 <= i < n ==> orders[..n][i] == orders[i];
      ChunkIsImage(orders[..n], barrier, k);
      DeviceSize(orders[..n], barrier);
      ChunkStays(Device(orders[..n]), Image(orders[n]), barrier, k, n);
    }
  }

  lemma LastChunk(orders: seq<seq<Entry>>, barrier: nat)
    requires Full(orders, barrier) && orders != [] && barrier > 0
    requires |Device(orders)| == (|orders| - 1) * barrier + |Image(orders[|orders| - 1])|
    ensures Chunk(Device(orders), barrier, |orders| - 1) == Image(orders[|orders| - 1])
  {
    hide Image;
    var n := |orders| - 1;
    assert (n + 1) * barrier == n * barrier + barrier;
    assert Device(orders) == Device(orders[..n]) + Image(orders[n]);
  }

  lemma ChunkStays(device: Bytes, more: Bytes, barrier: nat, k: nat, n: nat)
    requires k < n && |device| == n * barrier
    ensures Chunk(device + more, barrier, k) == Chunk(device, barrier, k)
  {
    assert (k + 1) * barrier <= n * barrier && k * barrier <= (k + 1) * barrier by { Multiples(k, n, barrier); }
    var lo, hi := k * barrier, (k + 1) * barrier;
    if lo < hi { assert (device + more)[lo..hi] == device[lo..hi]; }
  }

  lemma Multiples(k: nat, n: nat, barrier: nat)
    requires k < n
    ensures k * barrier <= (k + 1) * barrier <= n * barrier
  {
    assert n * barrier == (k + 1) * barrier + (n - k - 1) * barrier;
    assert (n - k - 1) * barrier >= 0 && (k + 1) * barrier == k * barrier + barrier;
  }

  // ---------------------------------------------------------------- when every order is recovered

  /** Nothing the device may do to a group of entries loses any: no padding, or a single entry whose padding holds a
      size field or is none. */
  predicate Safe(group: seq<Entry>) {
    if |group| <= 1 then NoSlivers(group) else Unpadded(group)
  }

  lemma SingleRecovers(e: Entry, first: bool)
    requires Writable(e) && (e.sequence > 0 || first)
    ensures Recovers([e], [e], 0, first) <==> NoSlivers([e])
  {
    hide Parse, Frame, Encode, Pow256, Padding;
    var buf := Image([e]) + Zeros(BLOCK * 0);
    assert [e][1..] == [] && Image([e]) == Frame(e) + Image([]);
    assert buf == [] + Frame(e) + [];
    FrameParts(e);
    FrameAt(buf, [], e, []);
    ParseFrame(buf, 0, first, e);
    var q := HEADER + |e.data|;
    assert [] + [e] + [] == [e];
    if NoSlivers([e]) {
      assert [e][0] == e;
      ParseStops([], e, [], 0, first);
    } else {
      TooShort(buf, q, first);
    }
  }

  lemma TooShort(buf: Bytes, q: nat, first: bool)
    requires q < |buf| < q + 8
    ensures Parse(buf, q, first) == None
  {
  }

  lemma EmptyRecovers(first: bool)
    ensures Recovers([], [], 0, first)
  {
    assert Image([]) + Zeros(BLOCK * 0) == [];
  }

  lemma SameSize(a: seq<Entry>, b: seq<Entry>)
    requires multiset(a) == multiset(b)
    ensures |a| == |b| && (|a| == 1 ==> a == b)
  {
    assert |multiset(a)| == |multiset(b)|;
    if |a| == 1 { assert a[0] in multiset(b); }
  }

  lemma SafeRecovers(group: seq<Entry>, order: seq<Entry>, first: bool)
    requires Increasing(group) && AllWritable(group, first) && Safe(group) && multiset(order) == multiset(group)
    ensures Recovers(group, order, 0, first)
  {
    hide Recovers, Padding, Writable;
    SameSize(order, group);
    if |group| == 0 {
      EmptyRecovers(first);
    } else if |group| == 1 {
      assert group == [group[0]];
      SingleRecovers(group[0], first);
    } else {
      UnpaddedRecovers(group, order, 0, first);
    }
  }

  lemma UnsafeLoses(group: seq<Entry>, first: bool) returns (order: seq<Entry>)
    requires AllWritable(group, first) && !Safe(group)
    ensures multiset(order) == multiset(group) && !Recovers(group, order, 0, first)
  {
    hide Recovers, Padding, Writable;
    if |group| == 1 {
      assert group == [group[0]];
      SingleRecovers(group[0], first);
      order := group;
    } else {
      var k :| 0 <= k < |group| && Padding(group[k]) != 0;
      order := SomeOrderLost(group, k, 0, first);
    }
  }

  // ---------------------------------------------------------------- the whole log

  lemma {:induction false} InFlat(groups: seq<seq<Entry>>, g: nat, i: nat) returns (at: nat)
    requires g < |groups| && i < |groups[g]|
    ensures at < |Flat(groups)| && Flat(groups)[at] == groups[g][i] && (g > 0 && |groups[0]| > 0 ==> at > 0)
  {
    var n := |groups| - 1;
    if g == n {
      at := |Flat(groups[..n])| + i;
      if n > 0 && |groups[0]| > 0 { var b := InFlat(groups[..n], 0, 0); }
    } else {
      assert groups[..n][g] == groups[g] && groups[..n][0] == groups[0];
      at := InFlat(groups[..n], g, i);
    }
  }

  lemma FrameFits(es: seq<Entry>, i: nat)
    requires i < |es|
    ensures |es[i].data| < |Image(es)|
  {
    hide Frame;
    ImageTakenOut(es, i);
    FrameParts(es[i]);
  }

  /** The entries of each interval are such as recovery needs. */
  lemma GroupOk(groups: seq<seq<Entry>>, barrier: nat, g: nat)
    requires LogOk(groups, barrier) && g < |groups|
    ensures Increasing(groups[g]) && AllWritable(groups[g], g == 0)
  {
    hide Image, Flat, Pow256;
    GroupsIncrease(groups, g);
    forall i | 0 <= i < |groups[g]|
      ensures Writable(groups[g][i]) && (groups[g][i].sequence > 0 || g == 0)
    {
      if g > 0 { FirstNotEmpty(groups, barrier); }
      var at := InFlat(groups, g, i);
      FrameFits(groups[g], i);
      assert |Image(groups[g])| <= barrier;
    }
  }

  lemma FirstNotEmpty(groups: seq<seq<Entry>>, barrier: nat)
    requires LogOk(groups, barrier) && |groups| > 1
    ensures |groups[0]| > 0
  {
    assert |Image(groups[0])| == barrier;
  }

  lemma ReadsIsRecovers(groups: seq<seq<Entry>>, orders: seq<seq<Entry>>, barrier: nat, k: nat)
    requires LogOk(groups, barrier) && Arranged(groups, orders) && k < |groups|
    ensures ChunkReads(Device(orders), barrier, k, groups[k]) <==> Recovers(groups[k], orders[k], 0, k == 0)
  {
    hide Image, Flat, Parse, LogOk, Device, Chunk;
    BarrierPositive(groups, barrier);
    ArrangedFull(groups, orders, barrier);
    ChunkIsImage(orders, barrier, k);
    assert Image(orders[k]) + Zeros(BLOCK * 0) == Image(orders[k]);
  }

  lemma BarrierPositive(groups: seq<seq<Entry>>, barrier: nat)
    requires LogOk(groups, barrier)
    ensures barrier > 0
  {
  }

  /** The log is read back whatever orders the device chose, if and only if every interval is safe. */
  lemma LogIff(groups: seq<seq<Entry>>, barrier: nat)
    requires LogOk(groups, barrier)
    ensures (forall orders: seq<seq<Entry>> | Arranged(groups, orders) :: ReadsAs(Device(orders), barrier, groups))
       <==> forall k :: 0 <= k < |groups| ==> Safe(groups[k])
  {
    hide LogOk, Device, ChunkReads, Safe, Recovers, Increasing, AllWritable;
    if forall k :: 0 <= k < |groups| ==> Safe(groups[k]) {
      forall orders: seq<seq<Entry>> | Arranged(groups, orders) ensures ReadsAs(Device(orders), barrier, groups) {
        forall k: nat | k < |groups| ensures ChunkReads(Device(orders), barrier, k, groups[k]) {
          GroupOk(groups, barrier, k);
          SafeRecovers(groups[k], orders[k], k == 0);
          ReadsIsRecovers(groups, orders, barrier, k);
        }
      }
    } else {
      var k: nat :| k < |groups| && !Safe(groups[k]);
      GroupOk(groups, barrier, k);
      var order := UnsafeLoses(groups[k], k == 0);
      var orders := groups[k := order];
      assert Arranged(groups, orders);
      ReadsIsRecovers(groups, orders, barrier, k);
      assert !ChunkReads(Device(orders), barrier, k, groups[k]);
    }
  }

  // ---------------------------------------------------------------- TryRecoverWAL

  /** Chunk k begins before the write head and reads as es. */
  predicate Within(device: Bytes, barrier: nat, k: nat, es: seq<Entry>) {
    k * barrier < |device| && ChunkReads(device, barrier, k, es)
  }

  /** Reading is over: the write head, an empty chunk or enough data is reached. */
  predicate Over(device: Bytes, barrier: nat, offset: nat, outs: seq<seq<Entry>>) {
    |outs| * barrier >= |device| || (outs != [] && (outs[|outs| - 1] == [] || |Stream(outs)| >= offset))
  }

  /** The chunks from the first on that have been read, none of them after reading was over. */
  predicate ReadSoFar(device: Bytes, barrier: nat, offset: nat, outs: seq<seq<Entry>>) {
    && (forall k: nat :: k < |outs| ==> Within(device, barrier, k, outs[k]))
    && (forall k: nat :: k < |outs| ==> !Over(device, barrier, offset, outs[..k]))
  }

  predicate ReadUpTo(device: Bytes, barrier: nat, offset: nat, outs: seq<seq<Entry>>) {
    ReadSoFar(device, barrier, offset, outs) && Over(device, barrier, offset, outs)
  }

  /** Reading fails at the chunk after these. */
  predicate FailsAfter(device: Bytes, barrier: nat, offset: nat, outs: seq<seq<Entry>>) {
    && ReadSoFar(device, barrier, offset, outs) && !Over(device, barrier, offset, outs)
    && Parse(Chunk(device, barrier, |outs|), 0, |outs| == 0).None?
  }

  lemma OneMoreChunk(device: Bytes, barrier: nat, offset: nat, outs: seq<seq<Entry>>, es: seq<Entry>)
    requires ReadSoFar(device, barrier, offset, outs) && !Over(device, barrier, offset, outs)
    requires Within(device, barrier, |outs|, es)
    ensures ReadSoFar(device, barrier, offset, outs + [es])
  {
    hide Within, Over;
    var all := outs + [es];
    forall k: nat | k < |all| ensures !Over(device, barrier, offset, all[..k]) {
      if k < |outs| { assert all[..k] == outs[..k]; } else { assert all[..k] == outs; }
    }
  }

  method ReadChunk(device: Bytes, barrier: nat, k: nat) returns (c: Option<seq<Entry>>)
    requires barrier > 0 && k * barrier < |device|
    ensures c.None? ==> Parse(Chunk(device, barrier, k), 0, k == 0).None?
    ensures c.Some? ==> Within(device, barrier, k, c.value)
  {
    hide Parse, IsSorting;
    var lo, hi := k * barrier, Min((k + 1) * barrier, |device|);
    assert (k + 1) * barrier == k * barrier + barrier;
    c := RecoverWALChunk(device[lo..hi], k == 0);
  }

  /** TryRecoverWAL on a file that was just opened. */
  method TryRecoverWAL(device: Bytes, barrier: nat, offset: nat) returns (outs: Option<seq<seq<Entry>>>)
    requires barrier > 0
    ensures outs.Some? ==> ReadUpTo(device, barrier, offset, outs.value)
    ensures outs.None? ==> exists read: seq<seq<Entry>> :: FailsAfter(device, barrier, offset, read)
  {
    hide Parse, Data, Within, Chunk, Stream, ReadSoFar;
    var read: seq<seq<Entry>>, end := [], 0;
    var k: nat, pos := 0, 0;
    StreamNone();
    NoChunkYet(device, barrier, offset);
    while pos < |device|
      invariant k == |read| && end == |Stream(read)| && pos == k * barrier
      invariant ReadSoFar(device, barrier, offset, read) && (pos < |device| ==> !Over(device, barrier, offset, read))
      decreases |device| - pos
    {
      var c := ReadChunk(device, barrier, k);
      if c.None? {
        assert FailsAfter(device, barrier, offset, read);
        return None;
      }
      StreamMore(read, c.value);
      OneMoreChunk(device, barrier, offset, read, c.value);
      read := read + [c.value];
      end := end + DataSize(c.value);
      Next(k, barrier);
      k, pos := k + 1, pos + barrier;
      if c.value == [] || end >= offset { return Some(read); }
    }
    return Some(read);
  }

  lemma NoChunkYet(device: Bytes, barrier: nat, offset: nat)
    ensures ReadSoFar(device, barrier, offset, [])
  {
  }

  lemma Next(k: nat, barrier: nat)
    ensures (k + 1) * barrier == k * barrier + barrier
  {
  }

  lemma StreamNone()
    ensures Stream([]) == []
  {
  }

  lemma StreamMore(read: seq<seq<Entry>>, es: seq<Entry>)
    ensures Stream(read + [es]) == Stream(read) + Data(es)
  {
    assert (read + [es])[..|read|] == read;
  }

  /** The sum over the entries' sizes. */
  function DataSize(es: seq<Entry>): (n: nat)
    ensures n == |Data(es)|
  {
    if es == [] then 0 else |es[0].data| + DataSize(es[1..])
  }

  lemma {:induction false} StreamPrefix(groups: seq<seq<Entry>>, n: nat)
    requires n <= |groups|
    ensures Stream(groups[..n]) <= Stream(groups)
    decreases |groups|
  {
    var m := |groups| - 1;
    if n == |groups| {
      assert groups[..n] == groups;
    } else {
      StreamPrefix(groups[..m], n);
      assert groups[..m][..n] == groups[..n];
    }
  }

  /** Only the last interval can be empty. */
  lemma EmptyIsLast(groups: seq<seq<Entry>>, barrier: nat, k: nat)
    requires LogOk(groups, barrier) && k < |groups| && groups[k] == []
    ensures k == |groups| - 1
  {
    assert Image([]) == [];
  }

  /** Everything there is has been read. */
  lemma NothingLeft(groups: seq<seq<Entry>>, orders: seq<seq<Entry>>, barrier: nat, n: nat)
    requires LogOk(groups, barrier) && Arranged(groups, orders) && n <= |groups|
    requires n * barrier >= |Device(orders)|
    ensures Stream(groups[..n]) == Stream(groups)
  {
    hide Image, Device, Flat, Consecutive, NoneEmpty, Pow256, Frame;
    var m := |groups| - 1;
    if n == |groups| {
      assert groups[..n] == groups;
    } else {
      ArrangedFull(groups, orders, barrier);
      DeviceSize(orders, barrier);
      assert (n + 1) * barrier == n * barrier + barrier;
      if n < m { Multiples(n, m, barrier); }
      assert n == m && |Image(orders[m])| == 0;
      ImageSize(orders[m], groups[m]);
      assert groups[m] == [] by { if groups[m] != [] { FrameFits(groups[m], 0); } }
      assert Stream(groups) == Stream(groups[..m]) + Data([]);
    }
  }

  /** End to end: if every interval is safe, reading a file as far as its size gives the byte stream that was
      appended, whatever orders the device chose. */
  lemma EndToEnd(groups: seq<seq<Entry>>, orders: seq<seq<Entry>>, barrier: nat, outs: seq<seq<Entry>>)
    requires LogOk(groups, barrier) && Arranged(groups, orders)
    requires forall k :: 0 <= k < |groups| ==> Safe(groups[k])
    requires ReadUpTo(Device(orders), barrier, |Stream(groups)|, outs)
    ensures Stream(outs) == Stream(groups)
  {
    hide LogOk, Device, ChunkReads, Safe, Stream, Increasing, AllWritable;
    BarrierPositive(groups, barrier);
    LogIff(groups, barrier);
    OutsPrefix(groups, orders, barrier, outs);
    StreamPrefix(groups, |outs|);
    if |outs| * barrier >= |Device(orders)| {
      NothingLeft(groups, orders, barrier, |outs|);
    } else if outs[|outs| - 1] == [] {
      EmptyIsLast(groups, barrier, |outs| - 1);
      assert groups[..|groups|] == groups;
    }
  }

  /** And reading does not fail. */
  lemma NeverFails(groups: seq<seq<Entry>>, orders: seq<seq<Entry>>, barrier: nat, k: nat)
    requires LogOk(groups, barrier) && Arranged(groups, orders)
    requires forall g :: 0 <= g < |groups| ==> Safe(groups[g])
    ensures Parse(Chunk(Device(orders), barrier, k), 0, k == 0).Some?
  {
    hide LogOk, Device, Safe, Chunk, Parse;
    LogIff(groups, barrier);
    if k < |groups| {
      assert ChunkReads(Device(orders), barrier, k, groups[k]);
    } else {
      BeyondHead(groups, orders, barrier, k);
      ParseNothing(k == 0);
    }
  }

  lemma ParseNothing(first: bool)
    ensures Parse([], 0, first) == Some([])
  {
  }

  lemma BeyondHead(groups: seq<seq<Entry>>, orders: seq<seq<Entry>>, barrier: nat, k: nat)
    requires LogOk(groups, barrier) && Arranged(groups, orders) && k >= |groups|
    ensures Chunk(Device(orders), barrier, k) == []
  {
    hide Image, Device, Flat;
    ArrangedFull(groups, orders, barrier);
    DeviceSize(orders, barrier);
    var n := |groups|;
    assert |Device(orders)| <= (n - 1) * barrier + barrier == n * barrier;
    if n < k { Multiples(n, k, barrier); }
  }

  lemma ChunkUnique(device: Bytes, barrier: nat, k: nat, a: seq<Entry>, b: seq<Entry>)
    requires ChunkReads(device, barrier, k, a) && ChunkReads(device, barrier, k, b) && Increasing(b)
    ensures a == b
  {
    hide Parse, Chunk;
    SortIsUnique(a, b);
  }

  lemma WithinHead(device: Bytes, barrier: nat, k: nat, es: seq<Entry>)
    requires Within(device, barrier, k, es)
    ensures k * barrier < |device| && ChunkReads(device, barrier, k, es)
  {
  }

  lemma OutsPrefix(groups: seq<seq<Entry>>, orders: seq<seq<Entry>>, barrier: nat, outs: seq<seq<Entry>>)
    requires LogOk(groups, barrier) && Arranged(groups, orders) && ReadsAs(Device(orders), barrier, groups)
    requires forall k: nat :: k < |outs| ==> Within(Device(orders), barrier, k, outs[k])
    ensures |outs| <= |groups| && outs == groups[..|outs|]
  {
    hide Image, Device, ChunkReads, Flat, Within;
    ArrangedFull(groups, orders, barrier);
    DeviceSize(orders, barrier);
    var n := |groups|;
    assert |Device(orders)| <= (n - 1) * barrier + barrier == n * barrier;
    if |outs| > n { WithinHead(Device(orders), barrier, n, outs[n]); }
    forall k | 0 <= k < |outs| ensures outs[k] == groups[k] {
      GroupOk(groups, barrier, k);
      WithinHead(Device(orders), barrier, k, outs[k]);
      ChunkUnique(Device(orders), barrier, k, outs[k], groups[k]);
    }
  }
}
