/**
 Writing a write-ahead log with zone appends: SparseAppend cuts a buffer into entries so that no entry crosses
 a barrier or the end of a zone.
 */
module ZwalAppend {
  import opened Basics
  import opened Coding
  import opened ZwalRecovery

  /** How much of the buffer, header included, goes into the next entry. */
  function WriteSize(left: nat, capacity: nat, room: nat): nat {
    Min(Min(left + HEADER, capacity), room)
  }

  function Concat(pieces: seq<Bytes>): Bytes {
    if pieces == [] then [] else pieces[0] + Concat(pieces[1..])
  }

  /** Where the writer stands: bytes since the last barrier, and the capacity left in the active zone. */
  datatype Place = Place(since: nat, capacity: nat)

  /** Sizes are whole blocks, and there is always room for more than a header. */
  predicate PlaceOk(p: Place, barrier: nat, zone: nat) {
    && barrier % BLOCK == 0 && zone % BLOCK == 0 && p.since % BLOCK == 0 && p.capacity % BLOCK == 0
    && barrier > 0 && zone > 0 && p.capacity > 0 && p.since <= barrier
  }

  /** A barrier is set before the next entry if the interval is full. */
  function AfterBarrier(p: Place, barrier: nat): Place {
    if p.since >= barrier then p.(since := 0) else p
  }

  /** After an entry of n bytes; a full zone is closed and a new one allocated. */
  function Advance(p: Place, n: nat, zone: nat): Place {
    Place(p.since + n + Pad(n), if n + Pad(n) >= p.capacity then zone else p.capacity - (n + Pad(n)))
  }

  /** The data of the entries that SparseAppend makes of the window w, of which `left` bytes are to be written.  The
      window moves on only when the zone is full: only then the rest of the data is moved to its start. */
  function Pieces(w: Bytes, left: nat, p: Place, barrier: nat, zone: nat): seq<Bytes>
    requires left <= |w| && PlaceOk(p, barrier, zone)
    decreases left
  {
    if left == 0 then [] else
      var q := AfterBarrier(p, barrier);
      var n := WriteSize(left, q.capacity, barrier - q.since);
      SizesFit(left, q, barrier, zone);
      var next := Advance(q, n, zone);
      var rest := if n + Pad(n) == q.capacity then w[n - HEADER..] else w;
      [w[..n - HEADER]] + Pieces(rest, left - (n - HEADER), next, barrier, zone)
  }

  /** Where the writer stands when `left` more bytes are written. */
  function PlaceAtEnd(left: nat, p: Place, barrier: nat, zone: nat): (r: Place)
    requires PlaceOk(p, barrier, zone)
    ensures PlaceOk(r, barrier, zone)
    decreases left
  {
    if left == 0 then p else
      var q := AfterBarrier(p, barrier);
      var n := WriteSize(left, q.capacity, barrier - q.since);
      SizesFit(left, q, barrier, zone);
      PlaceAtEnd(left - (n - HEADER), Advance(q, n, zone), barrier, zone)
  }

  lemma SizesFit(left: nat, q: Place, barrier: nat, zone: nat)
    requires left > 0 && PlaceOk(q, barrier, zone) && q.since < barrier
    ensures var n := WriteSize(left, q.capacity, barrier - q.since);
      && HEADER < n <= left + HEADER && n + Pad(n) <= q.capacity && q.since + n + Pad(n) <= barrier
      && PlaceOk(Advance(q, n, zone), barrier, zone)
  {
    hide Pad;
    var room, n := barrier - q.since, WriteSize(left, q.capacity, barrier - q.since);
    Blocks(barrier, q.since);
    Blocks(q.capacity, 0);
    PadUp(n, q.capacity);
    PadUp(n, room);
    Blocks(q.capacity, n + Pad(n));
    BlockSum(q.since, n + Pad(n));
  }

  lemma Blocks(a: nat, b: nat)
    requires a % BLOCK == 0 && b % BLOCK == 0 && b <= a
    ensures (a - b) % BLOCK == 0 && (b < a ==> a - b >= BLOCK)
  {
  }

  lemma BlockSum(a: nat, b: nat)
    requires a % BLOCK == 0 && b % BLOCK == 0
    ensures (a + b) % BLOCK == 0
  {
  }

  /** Padding does not go beyond a block boundary that the entry does not pass. */
  lemma PadUp(n: nat, m: nat)
    requires n <= m && m % BLOCK == 0
    ensures n + Pad(n) <= m && (n + Pad(n)) % BLOCK == 0
  {
  }

  // ---------------------------------------------------------------- when the data survives the cutting

  /** No entry is cut at a barrier, except where the zone ends too.  Computed from sizes alone. */
  predicate CutsOnlyAtZones(left: nat, p: Place, barrier: nat, zone: nat)
    requires PlaceOk(p, barrier, zone)
    decreases left
  {
    left == 0 ||
    var q := AfterBarrier(p, barrier);
    var n := WriteSize(left, q.capacity, barrier - q.since);
    SizesFit(left, q, barrier, zone);
    n == left + HEADER || (n == q.capacity && CutsOnlyAtZones(left - (n - HEADER), Advance(q, n, zone), barrier, zone))
  }

  lemma WholeBlocks(n: nat)
    requires n % BLOCK == 0
    ensures Pad(n) == 0
  {
  }

  lemma NoPieces(w: Bytes, p: Place, barrier: nat, zone: nat)
    requires PlaceOk(p, barrier, zone)
    ensures Concat(Pieces(w, 0, p, barrier, zone)) == []
  {
  }

  lemma {:induction false} PiecesFaithful(w: Bytes, p: Place, barrier: nat, zone: nat)
    requires PlaceOk(p, barrier, zone) && CutsOnlyAtZones(|w|, p, barrier, zone)
    ensures Concat(Pieces(w, |w|, p, barrier, zone)) == w
    decreases |w|
  {
    hide Pieces, Concat, Pad, Advance;
    if w == [] {
      NoPieces(w, p, barrier, zone);
    } else {
      var q := AfterBarrier(p, barrier);
      var n := WriteSize(|w|, q.capacity, barrier - q.since);
      SizesFit(|w|, q, barrier, zone);
      FirstPiece(w, |w|, p, barrier, zone);
      var next, rest := Advance(q, n, zone), w[n - HEADER..];
      if n == |w| + HEADER {
        assert w[..n - HEADER] == w && rest == [];
        NoPieces(w, next, barrier, zone);
        NoPieces(rest, next, barrier, zone);
      } else {
        WholeBlocks(n);
        assert w == w[..n - HEADER] + rest;
        PiecesFaithful(rest, next, barrier, zone);
      }
    }
  }

  /** One entry, and what comes after it. */
  lemma FirstPiece(w: Bytes, left: nat, p: Place, barrier: nat, zone: nat)
    requires 0 < left <= |w| && PlaceOk(p, barrier, zone)
    ensures var q := AfterBarrier(p, barrier);
      var n := WriteSize(left, q.capacity, barrier - q.since);
      && HEADER < n <= left + HEADER && PlaceOk(Advance(q, n, zone), barrier, zone)
      && var rest := if n + Pad(n) == q.capacity then w[n - HEADER..] else w;
         Concat(Pieces(w, left, p, barrier, zone)) ==
         w[..n - HEADER] + Concat(Pieces(rest, left - (n - HEADER), Advance(q, n, zone), barrier, zone))
  {
    hide Pieces, Concat, Pad, Advance, WriteSize;
    PiecesUnfold(w, left, p, barrier, zone);
    var q := AfterBarrier(p, barrier);
    var n := WriteSize(left, q.capacity, barrier - q.since);
    var rest := if n + Pad(n) == q.capacity then w[n - HEADER..] else w;
    ConcatFirst(w[..n - HEADER], Pieces(rest, left - (n - HEADER), Advance(q, n, zone), barrier, zone));
  }

  lemma ConcatFirst(x: Bytes, pieces: seq<Bytes>)
    ensures Concat([x] + pieces) == x + Concat(pieces)
  {
  }

  lemma Differ(a: Bytes, v: Bytes, c: Bytes)
    requires c != v
    ensures a + c != a + v
  {
    assert (a + c)[|a|..] == c && (a + v)[|a|..] == v;
  }

  /** What a cut at a barrier loses. */
  function Marked(left: nat): (w: Bytes)
    requires left > 0
  {
    [1] + Zeros(left - 1)
  }

  /** If the next entry is cut at a barrier inside a zone, what comes after it is the start of the window again. */
  lemma MarkRepeated(left: nat, p: Place, barrier: nat, zone: nat)
    requires PlaceOk(p, barrier, zone) && left > 0
    requires var q := AfterBarrier(p, barrier);
      var n := WriteSize(left, q.capacity, barrier - q.since);
      n < left + HEADER && n != q.capacity
    ensures Concat(Pieces(Marked(left), left, p, barrier, zone)) != Marked(left)
  {
    hide Pieces, Concat, Pad, Advance;
    var q, w := AfterBarrier(p, barrier), Marked(left);
    var n := WriteSize(left, q.capacity, barrier - q.since);
    SizesFit(left, q, barrier, zone);
    BarrierCut(left, q, barrier, zone, n);
    FirstPiece(w, left, p, barrier, zone);
    StartsWith(w, left - (n - HEADER), Advance(q, n, zone), barrier, zone);
    assert Concat(Pieces(w, left, p, barrier, zone))[n - HEADER] == 1 && w[n - HEADER] == 0;
  }

  /** A cut at a barrier repeats the start of the window: for some data the log is wrong. */
  lemma {:induction false} SomeDataLost(left: nat, p: Place, barrier: nat, zone: nat) returns (w: Bytes)
    requires PlaceOk(p, barrier, zone) && !CutsOnlyAtZones(left, p, barrier, zone)
    ensures |w| == left && Concat(Pieces(w, left, p, barrier, zone)) != w
    decreases left
  {
    hide Pieces, Concat, Pad, Advance;
    var q := AfterBarrier(p, barrier);
    var n := WriteSize(left, q.capacity, barrier - q.since);
    SizesFit(left, q, barrier, zone);
    var next, len := Advance(q, n, zone), n - HEADER;
    if n == q.capacity {
      WholeBlocks(n);
      var v := SomeDataLost(left - len, next, barrier, zone);
      w := Zeros(len) + v;
      assert w[..len] == Zeros(len) && w[len..] == v;
      FirstPiece(w, left, p, barrier, zone);
      Differ(Zeros(len), v, Concat(Pieces(v, left - len, next, barrier, zone)));
    } else {
      w := Marked(left);
      MarkRepeated(left, p, barrier, zone);
    }
  }

  /** A barrier cut that does not end the zone. */
  lemma BarrierCut(left: nat, q: Place, barrier: nat, zone: nat, n: nat)
    requires PlaceOk(q, barrier, zone) && q.since < barrier && left > 0
    requires n == WriteSize(left, q.capacity, barrier - q.since) && n < left + HEADER && n != q.capacity
    ensures n == barrier - q.since && Pad(n) == 0 && n + Pad(n) != q.capacity && left > n - HEADER > 0
  {
    WholeBlocks(barrier - q.since);
  }

  lemma StartsWith(w: Bytes, left: nat, p: Place, barrier: nat, zone: nat)
    requires 0 < left <= |w| && PlaceOk(p, barrier, zone)
    ensures Concat(Pieces(w, left, p, barrier, zone)) != [] && Concat(Pieces(w, left, p, barrier, zone))[0] == w[0]
  {
    SizesFit(left, AfterBarrier(p, barrier), barrier, zone);
  }

  /** SparseAppend writes every buffer of this size faithfully if and only if it cuts only where a zone ends. */
  lemma FaithfulIff(left: nat, p: Place, barrier: nat, zone: nat)
    requires PlaceOk(p, barrier, zone)
    ensures CutsOnlyAtZones(left, p, barrier, zone) <==>
      forall w: Bytes :: |w| == left ==> Concat(Pieces(w, left, p, barrier, zone)) == w
  {
    if CutsOnlyAtZones(left, p, barrier, zone) {
      forall w: Bytes | |w| == left ensures Concat(Pieces(w, left, p, barrier, zone)) == w {
        PiecesFaithful(w, p, barrier, zone);
      }
    } else {
      var w := SomeDataLost(left, p, barrier, zone);
      assert Concat(Pieces(w, left, p, barrier, zone)) != w;
    }
  }

  // ---------------------------------------------------------------- the log so far

  function Flat(groups: seq<seq<Entry>>): seq<Entry> {
    if groups == [] then [] else Flat(groups[..|groups| - 1]) + groups[|groups| - 1]
  }

  /** Entries for the pieces, numbered from n on. */
  function Numbered(pieces: seq<Bytes>, n: nat): (es: seq<Entry>)
    ensures |es| == |pieces|
  {
    seq(|pieces|, i requires 0 <= i < |pieces| => Entry(n + i, pieces[i]))
  }

  predicate Consecutive(es: seq<Entry>) {
    forall i :: 0 <= i < |es| ==> es[i].sequence == i
  }

  lemma {:induction false} FlatParts(groups: seq<seq<Entry>>, g: nat) returns (at: nat)
    requires g < |groups|
    ensures at + |groups[g]| <= |Flat(groups)|
    ensures forall i :: 0 <= i < |groups[g]| ==> Flat(groups)[at + i] == groups[g][i]
  {
    var n := |groups| - 1;
    if g == n {
      at := |Flat(groups[..n])|;
    } else {
      at := FlatParts(groups[..n], g);
    }
  }

  /** Consecutive numbers over the whole log go up within each group, as recovery needs. */
  lemma GroupsIncrease(groups: seq<seq<Entry>>, g: nat)
    requires Consecutive(Flat(groups)) && g < |groups|
    ensures Increasing(groups[g])
  {
    var at := FlatParts(groups, g);
    forall i, j | 0 <= i < j < |groups[g]| ensures groups[g][i].sequence < groups[g][j].sequence {
      assert Flat(groups)[at + i].sequence == at + i && Flat(groups)[at + j].sequence == at + j;
    }
  }

  lemma ImageAppend(es: seq<Entry>, e: Entry)
    ensures |Image(es + [e])| == |Image(es)| + |Frame(e)|
  {
    hide Frame;
    ImageConcat(es, [e]);
    assert Image([e]) == Frame(e) + Image([]);
  }

  /** Every interval but the last is filled exactly up to the barrier. */
  predicate Filled(groups: seq<seq<Entry>>, barrier: nat) {
    forall g :: 0 <= g < |groups| - 1 ==> |Image(groups[g])| == barrier
  }

  /** The log by zones: every zone but the active one is full, and the active one has so much capacity left. */
  ghost predicate ZonesOk(zones: seq<seq<Entry>>, es: seq<Entry>, capacity: nat, zone: nat) {
    && zones != [] && Flat(zones) == es && |Image(zones[|zones| - 1])| + capacity == zone && Filled(zones, zone)
  }

  /** Where an entry goes: to the last interval, or to the active zone. */
  function Put(groups: seq<seq<Entry>>, e: Entry): seq<seq<Entry>>
    requires groups != []
  {
    groups[..|groups| - 1] + [groups[|groups| - 1] + [e]]
  }

  /** A zone that is full is closed, and the next one is empty. */
  lemma ZoneTakes(zones: seq<seq<Entry>>, es: seq<Entry>, e: Entry, capacity: nat, zone: nat)
    requires ZonesOk(zones, es, capacity, zone) && |Frame(e)| <= capacity
    ensures var left := capacity - |Frame(e)|;
      ZonesOk(Put(zones, e) + if left == 0 then [[]] else [], es + [e], if left == 0 then zone else left, zone)
  {
    hide Frame, Image, Flat;
    FlatAppend(zones, e);
    ImageAppend(zones[|zones| - 1], e);
    FlatLast(Put(zones, e), []);
    ImageNone();
    assert Put(zones, e) + [] == Put(zones, e);
  }

  lemma ImageNone()
    ensures Image([]) == []
  {
  }

  /** Every entry holds something. */
  predicate NoneEmpty(es: seq<Entry>) {
    forall i :: 0 <= i < |es| ==> |es[i].data| > 0
  }

  class ZoneFile {
    const barrier: nat              // WAL_BARRIER_SIZE_IN_KB * KiB
    const zone: nat                 // capacity of a new zone
    var since: nat                  // append_bytes_since_last_barrier_
    var capacity: nat               // capacity_ of the active zone
    var sequence: nat               // wal_seq_
    var groups: seq<seq<Entry>>     // what was appended, by barrier interval
    var zones: seq<seq<Entry>>      // the same, by zone

    ghost predicate Valid()
      reads this
    {
      && PlaceOk(Place(since, capacity), barrier, zone)
      && groups != [] && since == |Image(groups[|groups| - 1])| && Filled(groups, barrier)
      && sequence == |Flat(groups)| && Consecutive(Flat(groups)) && NoneEmpty(Flat(groups))
      && ZonesOk(zones, Flat(groups), capacity, zone)
    }

    constructor (barrierSize: nat, zoneSize: nat)
      requires barrierSize > 0 && zoneSize > 0 && barrierSize % BLOCK == 0 && zoneSize % BLOCK == 0
      ensures Valid() && barrier == barrierSize && zone == zoneSize && Flat(groups) == []
      ensures Place(since, capacity) == Place(0, zoneSize)
    {
      barrier, zone := barrierSize, zoneSize;
      since, capacity, sequence, groups, zones := 0, zoneSize, 0, [[]], [[]];
      new;
      assert groups[..0] == [];
    }

    /** WALSync when the interval is full. */
    method SetBarrier()
      requires Valid()
      modifies this`since, this`groups
      ensures Valid() && Flat(groups) == old(Flat(groups)) && since < barrier
      ensures Place(since, capacity) == AfterBarrier(old(Place(since, capacity)), barrier)
    {
      if since >= barrier {
        ghost var before := groups;
        groups := groups + [[]];
        since := 0;
        assert groups[..|groups| - 1] == before;
      }
    }

    /** The header goes in front of the data, and zeros behind it. */
    method WriteFrame(buffer: array<Byte>, n: nat, number: nat)
      requires HEADER < n && n + Pad(n) <= buffer.Length
      modifies buffer
      ensures buffer[..n + Pad(n)] == Frame(Entry(number, old(buffer[HEADER..n])))
      ensures forall i :: HEADER <= i < n || n + Pad(n) <= i < buffer.Length ==> buffer[i] == old(buffer[i])
    {
      hide Encode, Pad, Frame;
      var pad := Pad(n);
      var header := Encode(n - HEADER, 8) + Encode(number, 8);
      forall i | n <= i < n + pad { buffer[i] := 0; }
      forall i | 0 <= i < HEADER { buffer[i] := header[i]; }
      ghost var s := buffer[..n + pad];
      assert s[..HEADER] == header && s[HEADER..n] == old(buffer[HEADER..n]);
      FrameIs(Entry(number, old(buffer[HEADER..n])), s, n);
    }

    /** A frame goes to the device. */
    method AppendFrame(buffer: array<Byte>, n: nat)
      requires Valid() && since < barrier && HEADER < n && n + Pad(n) <= capacity && since + n + Pad(n) <= barrier
      requires n + Pad(n) <= buffer.Length
      modifies this`since, this`capacity, this`sequence, this`groups, this`zones, buffer
      ensures Valid() && sequence == old(sequence) + 1
      ensures Flat(groups) == old(Flat(groups)) + [Entry(old(sequence), old(buffer[HEADER..n]))]
      ensures Place(since, capacity) == Advance(old(Place(since, capacity)), n, zone)
      ensures since == old(since) + n + Pad(n) && (n + Pad(n) == old(capacity) ==> zones[|zones| - 1] == [])
      ensures buffer[..n + Pad(n)] == Frame(Entry(old(sequence), old(buffer[HEADER..n])))
      ensures forall i :: HEADER <= i < n || n + Pad(n) <= i < buffer.Length ==> buffer[i] == old(buffer[i])
    {
      hide Pad, Image, Frame, Flat;
      var pad, e := Pad(n), Entry(sequence, buffer[HEADER..n]);
      WriteFrame(buffer, n, sequence);
      FrameParts(e);
      ImageAppend(groups[|groups| - 1], e);
      FlatAppend(groups, e);
      PlaceAfter(Place(since, capacity), n, barrier, zone);
      ZoneTakes(zones, Flat(groups), e, capacity, zone);
      groups := Put(groups, e);
      zones := Put(zones, e) + if n + pad >= capacity then [[]] else [];
      sequence := sequence + 1;
      since := since + n + pad;
      capacity := if n + pad >= capacity then zone else capacity - (n + pad);
    }

    /** The buffer holds the first `left` bytes of the window, after room for a header. */
    ghost predicate Window(buffer: array<Byte>, w: Bytes, left: nat)
      reads buffer
    {
      && left <= |w| && HEADER + left + BLOCK <= buffer.Length
      && forall i :: HEADER <= i < HEADER + left ==> buffer[i] == w[i - HEADER]
    }

    /** One round of SparseAppend: one entry. */
    method AppendPiece(buffer: array<Byte>, left: nat, ghost w: Bytes) returns (rest: nat, ghost v: Bytes)
      requires Valid() && left > 0 && Window(buffer, w, left) && buffer.Length < Pow256(8)
      modifies this`since, this`capacity, this`sequence, this`groups, this`zones, buffer
      ensures Valid() && rest < left && Window(buffer, v, rest) && sequence == old(sequence) + 1
      ensures rest > 0 ==> since == barrier || zones[|zones| - 1] == []
      ensures Flat(groups) == old(Flat(groups)) + [Entry(old(sequence), w[..left - rest])]
      ensures Pieces(w, left, old(Place(since, capacity)), barrier, zone)
           == [w[..left - rest]] + Pieces(v, rest, Place(since, capacity), barrier, zone)
      ensures PlaceAtEnd(left, old(Place(since, capacity)), barrier, zone)
           == PlaceAtEnd(rest, Place(since, capacity), barrier, zone)
    {
      hide Pad, Image, Frame, Pow256, Flat, Pieces, Advance, WriteSize, PlaceOk, Filled, Consecutive, AfterBarrier,
        PlaceAtEnd, ZonesOk;
      ghost var p := Place(since, capacity);
      SetBarrier();
      var n := WriteSize(left, capacity, barrier - since);
      var full := n + Pad(n) == capacity;
      CutsForced(left, Place(since, capacity), barrier, zone);
      Round(w, left, p, Place(since, capacity), n, barrier, zone);
      assert buffer[HEADER..n] == w[..n - HEADER];
      AppendFrame(buffer, n);
      rest, v := left - (n - HEADER), w;
      if full {
        v := w[n - HEADER..];
        MoveDown(buffer, n, rest);
      }
    }

    /** The rest of the data moves to the start of the window. */
    method MoveDown(buffer: array<Byte>, n: nat, rest: nat)
      requires HEADER <= n && n + rest <= buffer.Length
      modifies buffer
      ensures forall i :: HEADER <= i < HEADER + rest ==> buffer[i] == old(buffer[n - HEADER + i])
    {
      forall i | HEADER <= i < HEADER + rest { buffer[i] := buffer[n - HEADER + i]; }
    }

    /** Cuts the data in the buffer into entries and appends them; in the log they are what Pieces says.  If no cut
        is made at a barrier inside a zone, the log's byte stream grows by exactly the data; otherwise by what the
        pieces hold together. */
    method SparseAppend(buffer: array<Byte>, size: nat)
      requires Valid() && HEADER + size + BLOCK <= buffer.Length < Pow256(8)
      modifies this`since, this`capacity, this`sequence, this`groups, this`zones, buffer
      ensures Valid()
      ensures var w, p := old(buffer[HEADER..HEADER + size]), old(Place(since, capacity));
        && Flat(groups) == old(Flat(groups)) + Numbered(Pieces(w, size, p, barrier, zone), old(sequence))
        && Stream(groups) == old(Stream(groups)) + Concat(Pieces(w, size, p, barrier, zone))
      ensures Place(since, capacity) == PlaceAtEnd(size, old(Place(since, capacity)), barrier, zone)
      ensures CutsOnlyAtZones(size, old(Place(since, capacity)), barrier, zone) ==>
        Stream(groups) == old(Stream(groups)) + old(buffer[HEADER..HEADER + size])
    {
      hide Pad, Image, Pow256, Flat, Pieces, Numbered, Stream, CutsOnlyAtZones, Concat, PlaceAtEnd;
      ghost var all := Pieces(buffer[HEADER..HEADER + size], size, Place(since, capacity), barrier, zone);
      var left: nat := size;
      ghost var w, done := buffer[HEADER..HEADER + size], [];
      NumberedNone(old(Flat(groups)), sequence);
      while left > 0
        invariant Valid() && Window(buffer, w, left)
        invariant all == done + Pieces(w, left, Place(since, capacity), barrier, zone)
        invariant Flat(groups) == old(Flat(groups)) + Numbered(done, old(sequence))
        invariant PlaceAtEnd(size, old(Place(since, capacity)), barrier, zone)
               == PlaceAtEnd(left, Place(since, capacity), barrier, zone)
        invariant sequence == old(sequence) + |done|
      {
        var rest;
        ghost var v;
        rest, v := AppendPiece(buffer, left, w);
        NumberedMore(old(Flat(groups)), done, w[..left - rest], old(sequence));
        done := done + [w[..left - rest]];
        left, w := rest, v;
      }
      PiecesEnd(w, Place(since, capacity), barrier, zone);
      assert all == done;
      StreamGrows(old(groups), groups, done, old(sequence));
      if CutsOnlyAtZones(size, old(Place(since, capacity)), barrier, zone) {
        PiecesFaithful(old(buffer[HEADER..HEADER + size]), old(Place(since, capacity)), barrier, zone);
      }
    }
  }

  lemma {:induction false} StreamIsFlat(groups: seq<seq<Entry>>)
    ensures Stream(groups) == Data(Flat(groups))
  {
    if groups != [] {
      var n := |groups| - 1;
      StreamIsFlat(groups[..n]);
      DataConcat(Flat(groups[..n]), groups[n]);
    }
  }

  lemma {:induction false} DataNumbered(pieces: seq<Bytes>, n: nat)
    ensures Data(Numbered(pieces, n)) == Concat(pieces)
  {
    if pieces != [] {
      DataNumbered(pieces[1..], n + 1);
      assert Numbered(pieces, n)[1..] == Numbered(pieces[1..], n + 1);
    }
  }

  lemma StreamGrows(groups: seq<seq<Entry>>, more: seq<seq<Entry>>, pieces: seq<Bytes>, n: nat)
    requires Flat(more) == Flat(groups) + Numbered(pieces, n)
    ensures Stream(more) == Stream(groups) + Concat(pieces)
  {
    StreamIsFlat(groups);
    StreamIsFlat(more);
    DataConcat(Flat(groups), Numbered(pieces, n));
    DataNumbered(pieces, n);
  }

  lemma NumberedNone(es: seq<Entry>, n: nat)
    ensures es + Numbered([], n) == es
  {
  }

  lemma NumberedMore(es: seq<Entry>, pieces: seq<Bytes>, x: Bytes, n: nat)
    ensures (es + Numbered(pieces, n)) + [Entry(n + |pieces|, x)] == es + Numbered(pieces + [x], n)
  {
    assert Numbered(pieces + [x], n) == Numbered(pieces, n) + [Entry(n + |pieces|, x)];
  }

  /** Data is cut only because the interval or the zone is full, and the entry fills it up to the end. */
  lemma CutsForced(left: nat, q: Place, barrier: nat, zone: nat)
    requires left > 0 && PlaceOk(q, barrier, zone) && q.since < barrier
    ensures var n := WriteSize(left, q.capacity, barrier - q.since);
      n < left + HEADER ==> q.since + n + Pad(n) == barrier || n + Pad(n) == q.capacity
  {
    PadSmall(left, q, barrier, zone);
  }

  /** Only the last entry is padded. */
  lemma PadSmall(left: nat, q: Place, barrier: nat, zone: nat)
    requires left > 0 && PlaceOk(q, barrier, zone) && q.since < barrier
    ensures var n := WriteSize(left, q.capacity, barrier - q.since);
      Pad(n) < BLOCK && (n < left + HEADER ==> Pad(n) == 0)
  {
    Blocks(barrier, q.since);
    WholeBlocks(q.capacity);
    WholeBlocks(barrier - q.since);
  }

  lemma PiecesUnfold(w: Bytes, left: nat, p: Place, barrier: nat, zone: nat)
    requires 0 < left <= |w| && PlaceOk(p, barrier, zone)
    ensures var q := AfterBarrier(p, barrier);
      var n := WriteSize(left, q.capacity, barrier - q.since);
      && HEADER < n <= left + HEADER && PlaceOk(Advance(q, n, zone), barrier, zone)
      && var rest := if n + Pad(n) == q.capacity then w[n - HEADER..] else w;
         Pieces(w, left, p, barrier, zone) == [w[..n - HEADER]] +
         Pieces(rest, left - (n - HEADER), Advance(q, n, zone), barrier, zone)
  {
    SizesFit(left, AfterBarrier(p, barrier), barrier, zone);
  }

  /** One round of SparseAppend, from place p; q is where it stands after a barrier. */
  lemma Round(w: Bytes, left: nat, p: Place, q: Place, n: nat, barrier: nat, zone: nat)
    requires 0 < left <= |w| && PlaceOk(p, barrier, zone) && q == AfterBarrier(p, barrier)
    requires n == WriteSize(left, q.capacity, barrier - q.since)
    ensures HEADER < n <= left + HEADER && n + Pad(n) <= q.capacity && q.since + n + Pad(n) <= barrier
    ensures Pad(n) < BLOCK && (n < left + HEADER ==> Pad(n) == 0)
    ensures var next, rest := Advance(q, n, zone), if n + Pad(n) == q.capacity then w[n - HEADER..] else w;
      && PlaceOk(next, barrier, zone)
      && PlaceAtEnd(left, p, barrier, zone) == PlaceAtEnd(left - (n - HEADER), next, barrier, zone)
      && Pieces(w, left, p, barrier, zone)
         == [w[..n - HEADER]] + Pieces(rest, left - (n - HEADER), next, barrier, zone)
  {
    hide Pieces, PlaceAtEnd, Pad, Advance, WriteSize;
    SizesFit(left, q, barrier, zone);
    PadSmall(left, q, barrier, zone);
    PiecesUnfold(w, left, p, barrier, zone);
    PlaceUnfold(left, p, barrier, zone);
  }

  lemma PlaceUnfold(left: nat, p: Place, barrier: nat, zone: nat)
    requires 0 < left && PlaceOk(p, barrier, zone)
    ensures var q := AfterBarrier(p, barrier);
      var n := WriteSize(left, q.capacity, barrier - q.since);
      && HEADER < n <= left + HEADER && PlaceOk(Advance(q, n, zone), barrier, zone)
      && PlaceAtEnd(left, p, barrier, zone) == PlaceAtEnd(left - (n - HEADER), Advance(q, n, zone), barrier, zone)
  {
    SizesFit(left, AfterBarrier(p, barrier), barrier, zone);
  }

  lemma PiecesEnd(w: Bytes, p: Place, barrier: nat, zone: nat)
    requires PlaceOk(p, barrier, zone)
    ensures Pieces(w, 0, p, barrier, zone) == [] && PlaceAtEnd(0, p, barrier, zone) == p
  {
  }

  lemma FrameIs(e: Entry, s: Bytes, n: nat)
    requires |s| == n + Pad(n) && n == HEADER + |e.data|
    requires s[..HEADER] == Encode(|e.data|, 8) + Encode(e.sequence, 8) && s[HEADER..n] == e.data
    requires forall i :: n <= i < |s| ==> s[i] == 0
    ensures s == Frame(e)
  {
    hide Encode, Pad;
    assert s == s[..HEADER] + s[HEADER..n] + s[n..];
    assert s[n..] == Zeros(Pad(n));
  }

  lemma FlatAppend(groups: seq<seq<Entry>>, e: Entry)
    requires groups != []
    ensures Flat(Put(groups, e)) == Flat(groups) + [e]
  {
    hide Flat;
    var a, g := groups[..|groups| - 1], groups[|groups| - 1];
    FlatLast(a, g + [e]);
    FlatLast(a, g);
    assert a + [g] == groups;
    Associate(Flat(a), g, [e]);
  }

  lemma Associate(a: seq<Entry>, b: seq<Entry>, c: seq<Entry>)
    ensures a + (b + c) == (a + b) + c
  {
  }

  lemma FlatLast(a: seq<seq<Entry>>, g: seq<Entry>)
    ensures Flat(a + [g]) == Flat(a) + g
  {
    assert (a + [g])[..|a|] == a;
  }

  lemma PlaceAfter(p: Place, n: nat, barrier: nat, zone: nat)
    requires PlaceOk(p, barrier, zone) && n + Pad(n) <= p.capacity && p.since + n + Pad(n) <= barrier
    ensures PlaceOk(Advance(p, n, zone), barrier, zone)
  {
    hide Pad;
    PadUp(n, p.capacity);
    Blocks(p.capacity, n + Pad(n));
    BlockSum(p.since, n + Pad(n));
  }

  // ---------------------------------------------------------------- data that is lost

  /** A new file with barriers every 1 MiB, after one block. */
  lemma OneBlockIn()
    ensures PlaceAtEnd(4080, Place(0, 0x400_0000), 0x10_0000, 0x400_0000) == Place(4096, 0x3FF_F000)
  {
    PlaceUnfold(4080, Place(0, 0x400_0000), 0x10_0000, 0x400_0000);
  }

  /** A buffer with this data in it. */
  method Fill(data: Bytes) returns (buffer: array<Byte>)
    ensures fresh(buffer) && buffer.Length == HEADER + |data| + BLOCK
    ensures buffer[HEADER..HEADER + |data|] == data
  {
    buffer := new Byte[HEADER + |data| + BLOCK]
      (i => if HEADER <= i < HEADER + |data| then data[i - HEADER] else 0);
  }

  /** A file that loses data: to a new file with barriers every 1 MiB, one block is appended and then 1 MiB, headers
      included.  The log's byte stream is not what was appended. */
  method DataLostExample() returns (f: ZoneFile, first: Bytes, second: Bytes)
    ensures fresh(f) && f.Valid() && f.barrier == 0x10_0000 && f.zone == 0x400_0000
    ensures |first| == 4080 && |second| == 0xF_FFF0
    ensures Stream(f.groups) != first + second
  {
    hide Stream, Pieces, Concat, Numbered, Flat, CutsOnlyAtZones, PlaceAtEnd, Pow256;
    f := new ZoneFile(0x10_0000, 0x400_0000);
    StreamIsFlat(f.groups);
    first, second := Zeros(4080), Marked(0xF_FFF0);
    var one := Fill(first);
    var two := Fill(second);
    Width(0x10_1000);
    OneBlockIn();
    WholeEntry(4080, Place(0, 0x400_0000), 0x10_0000, 0x400_0000);
    f.SparseAppend(one, 4080);
    ghost var before := Stream(f.groups);
    MarkRepeated(0xF_FFF0, Place(4096, 0x3FF_F000), 0x10_0000, 0x400_0000);
    f.SparseAppend(two, 0xF_FFF0);
    Differ(before, second, Concat(Pieces(second, 0xF_FFF0, Place(4096, 0x3FF_F000), 0x10_0000, 0x400_0000)));
  }

  /** Data that fits into one entry is not cut at all. */
  lemma WholeEntry(left: nat, p: Place, barrier: nat, zone: nat)
    requires PlaceOk(p, barrier, zone)
    requires var q := AfterBarrier(p, barrier); left + HEADER <= q.capacity && left + HEADER <= barrier - q.since
    ensures CutsOnlyAtZones(left, p, barrier, zone)
  {
  }
}
