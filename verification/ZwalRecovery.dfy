/**
 Recovery of a write-ahead log written with zone appends.

 Each entry is a frame on the device: its size and its sequence number, 8 bytes each, the data, and zeros up to
 the next block.  Between two barriers the device may store frames in any order; RecoverWALChunk reads what lies
 between two barriers, takes the frames apart and sorts the entries by sequence number.
 */
module ZwalRecovery {
  import opened Basics
  import opened Coding

  const BLOCK: nat := 4096
  const HEADER: nat := 16

  datatype Entry = Entry(sequence: nat, data: Bytes)

  function Zeros(n: nat): (z: Bytes)
    ensures |z| == n && forall i :: 0 <= i < n ==> z[i] == 0
  {
    seq(n, _ => 0)
  }

  /** The zeros needed to fill the last block. */
  function Pad(n: nat): nat {
    (BLOCK - n % BLOCK) % BLOCK
  }

  function Padding(e: Entry): nat {
    Pad(HEADER + |e.data|)
  }

  function Frame(e: Entry): Bytes {
    Encode(|e.data|, 8) + Encode(e.sequence, 8) + e.data + Zeros(Padding(e))
  }

  /** What can be written: some data, of a 32-bit size, and a 64-bit number. */
  predicate Writable(e: Entry) {
    0 < |e.data| < 0x1_0000_0000 && e.sequence < Pow256(8)
  }

  /** The device between two barriers: frames in device order. */
  function Image(es: seq<Entry>): Bytes {
    if es == [] then [] else Frame(es[0]) + Image(es[1..])
  }

  // ---------------------------------------------------------------- taking frames apart

  /** The loop of RecoverWALChunk from position r on; `first` says whether this is the first chunk of the log.
      None is an overshoot (Corruption), or an outcome that the bytes of the chunk alone do not decide.  A header
      field that is decoded but does not matter may lie beyond the chunk: module ZwalBounds. */
  function Parse(buf: Bytes, r: nat, first: bool): Option<seq<Entry>>
    decreases |buf| - r
  {
    if r >= |buf| then Some([])
    else if r + 8 > |buf| then None
    else
      var size := Decode(buf[r..r + 8]);
      if size == 0 then Some([])
      else if r + HEADER > |buf| then None
      else
        var sequence := Decode(buf[r + 8..r + HEADER]);
        if sequence == 0 && !first then Some([])
        else if r + HEADER + size > |buf| then None
        else
          var rest := Parse(buf, r + HEADER + size, first);
          if rest.None? then None
          else Some([Entry(sequence, buf[r + HEADER..r + HEADER + size])] + rest.value)
  }

  /** RecoverWALChunk's reading loop. */
  method ReadEntries(buf: Bytes, first: bool) returns (entries: Option<seq<Entry>>)
    ensures entries == Parse(buf, 0, first)
  {
    var r: nat, es := 0, [];
    PrependNothing(Parse(buf, 0, first));
    while r < |buf|
      invariant Parse(buf, 0, first) == Prepend(es, Parse(buf, r, first))
      decreases |buf| - r
    {
      if r + 8 > |buf| { return None; }
      var size := Decode(buf[r..r + 8]);
      if size == 0 { break; }
      if r + HEADER > |buf| { return None; }
      var sequence := Decode(buf[r + 8..r + HEADER]);
      if sequence == 0 && !first { break; }
      if r + HEADER + size > |buf| { return None; }
      ghost var rest := Parse(buf, r + HEADER + size, first);
      var e := Entry(sequence, buf[r + HEADER..r + HEADER + size]);
      PrependTwice(es, [e], rest);
      es := es + [e];
      r := r + HEADER + size;
    }
    PrependNothing(Some(es));
    return Some(es);
  }

  /** Nothing empty is read, and sequence number 0 is taken for padding everywhere but in the first chunk. */
  lemma {:induction false} ReadIsReal(buf: Bytes, r: nat, first: bool)
    requires Parse(buf, r, first).Some?
    ensures forall i :: 0 <= i < |Parse(buf, r, first).value| ==>
      var e := Parse(buf, r, first).value[i]; |e.data| > 0 && (e.sequence > 0 || first)
    decreases |buf| - r
  {
    if r + HEADER <= |buf| {
      var size := Decode(buf[r..r + 8]);
      if size > 0 && r + HEADER + size <= |buf| && Parse(buf, r + HEADER + size, first).Some? {
        ReadIsReal(buf, r + HEADER + size, first);
      }
    }
  }

  function Prepend(es: seq<Entry>, rest: Option<seq<Entry>>): Option<seq<Entry>> {
    if rest.None? then None else Some(es + rest.value)
  }

  lemma PrependNothing(rest: Option<seq<Entry>>)
    ensures Prepend([], rest) == rest
    ensures rest.Some? ==> Prepend(rest.value, Some([])) == rest
  {
    if rest.Some? { assert [] + rest.value == rest.value && rest.value + [] == rest.value; }
  }

  lemma PrependTwice(a: seq<Entry>, b: seq<Entry>, rest: Option<seq<Entry>>)
    ensures Prepend(a, Prepend(b, rest)) == Prepend(a + b, rest)
  {
    if rest.Some? { assert a + (b + rest.value) == (a + b) + rest.value; }
  }

  lemma SubSlice(buf: Bytes, r: nat, n: nat, i: nat, j: nat)
    requires i <= j <= n && r + n <= |buf|
    ensures buf[r..r + n][i..j] == buf[r + i..r + j]
  {
    var a := buf[r..r + n];
    forall k | 0 <= k < j - i ensures a[i..j][k] == buf[r + i..r + j][k] {
      assert a[i + k] == buf[r + (i + k)];
    }
  }

  lemma Thirds(a: Bytes, b: Bytes, c: Bytes)
    requires |a| == 8 && |b| == 8
    ensures (a + b + c)[..8] == a && (a + b + c)[8..HEADER] == b && (a + b + c)[HEADER..] == c
  {
  }

  lemma Width(n: nat)
    requires n < 0x1_0000_0000
    ensures n < Pow256(4) < Pow256(8)
  {
    assert Pow256(4) == 256 * (256 * (256 * 256));
    assert Pow256(8) == 256 * (256 * (256 * (256 * Pow256(4))));
  }

  /** One frame is read back; reading goes on right after its data. */
  lemma ParseFrame(buf: Bytes, r: nat, first: bool, e: Entry)
    requires Writable(e) && r + HEADER + |e.data| <= |buf| && (e.sequence > 0 || first)
    requires buf[r..r + HEADER + |e.data|] == Encode(|e.data|, 8) + Encode(e.sequence, 8) + e.data
    ensures Parse(buf, r, first) == Prepend([e], Parse(buf, r + HEADER + |e.data|, first))
  {
    hide Encode, Decode, Pow256;
    Width(|e.data|);
    var f := buf[r..r + HEADER + |e.data|];
    Thirds(Encode(|e.data|, 8), Encode(e.sequence, 8), e.data);
    SubSlice(buf, r, |f|, 0, 8);
    SubSlice(buf, r, |f|, 8, HEADER);
    SubSlice(buf, r, |f|, HEADER, |f|);
    assert f[0..8] == f[..8] && f[HEADER..|f|] == f[HEADER..];
    DecodeEncode(|e.data|, 8);
    DecodeEncode(e.sequence, 8);
  }

  lemma {:induction false} DecodeZeros(s: Bytes)
    requires forall i :: 0 <= i < |s| ==> s[i] == 0
    ensures Decode(s) == 0
  {
    if s != [] { DecodeZeros(s[1..]); }
  }

  /** Eight zeros end the reading. */
  lemma ParseZeros(buf: Bytes, r: nat, first: bool)
    requires r + 8 <= |buf| && forall i :: r <= i < r + 8 ==> buf[i] == 0
    ensures Parse(buf, r, first) == Some([])
  {
    DecodeZeros(buf[r..r + 8]);
  }

  predicate AllWritable(es: seq<Entry>, first: bool) {
    forall i :: 0 <= i < |es| ==> Writable(es[i]) && (es[i].sequence > 0 || first)
  }

  predicate Unpadded(es: seq<Entry>) {
    forall i :: 0 <= i < |es| ==> Padding(es[i]) == 0
  }

  lemma FrameParts(e: Entry)
    ensures Frame(e)[..HEADER + |e.data|] == Encode(|e.data|, 8) + Encode(e.sequence, 8) + e.data
    ensures |Frame(e)| == HEADER + |e.data| + Padding(e)
    ensures forall i :: HEADER + |e.data| <= i < |Frame(e)| ==> Frame(e)[i] == 0
  {
  }

  /** Unpadded frames are read one after the other. */
  lemma {:induction false} ParseUnpadded(pre: Bytes, es: seq<Entry>, post: Bytes, first: bool)
    requires AllWritable(es, first) && Unpadded(es)
    ensures Parse(pre + Image(es) + post, |pre|, first)
         == Prepend(es, Parse(pre + Image(es) + post, |pre| + |Image(es)|, first))
    decreases |es|
  {
    hide Parse, Encode, Frame, Padding;
    var buf := pre + Image(es) + post;
    if es == [] {
      PrependNothing(Parse(buf, |pre|, first));
    } else {
      var e := es[0];
      FrameParts(e);
      var r := |pre| + |Frame(e)|;
      assert buf == (pre + Frame(e)) + Image(es[1..]) + post by { Regroup(pre, Frame(e), Image(es[1..]), post); }
      assert buf[|pre|..r] == Frame(e);
      ParseFrame(buf, |pre|, first, e);
      ParseUnpadded(pre + Frame(e), es[1..], post, first);
      PrependTwice([e], es[1..], Parse(buf, |pre| + |Image(es)|, first));
      assert [e] + es[1..] == es;
    }
  }

  lemma Regroup(a: Bytes, b: Bytes, c: Bytes, d: Bytes)
    ensures a + (b + c) + d == (a + b) + c + d
    ensures a + (b + c) + d == a + (b + c + d)
  {
  }

  lemma {:induction false} ImageConcat(a: seq<Entry>, b: seq<Entry>)
    ensures Image(a + b) == Image(a) + Image(b)
  {
    if a == [] {
      assert a + b == b;
    } else {
      assert (a + b)[0] == a[0] && (a + b)[1..] == a[1..] + b;
      ImageConcat(a[1..], b);
    }
  }

  lemma ImageAround(a: seq<Entry>, f: Entry, b: seq<Entry>)
    ensures Image(a + [f] + b) == Image(a) + (Frame(f) + Image(b))
  {
    hide Frame;
    assert a + [f] + b == a + ([f] + b);
    ImageConcat(a, [f] + b);
    assert ([f] + b)[1..] == b;
  }

  /** Reading comes to the first padded frame f and ends there: in its padding, or at the end of the chunk. */
  lemma ParseStops(a: seq<Entry>, f: Entry, b: seq<Entry>, z: nat, first: bool)
    requires AllWritable(a + [f] + b, first) && Unpadded(a)
    requires Padding(f) >= 8 || (b == [] && (Padding(f) + z == 0 || Padding(f) + z >= 8))
    ensures Parse(Image(a + [f] + b) + Zeros(z), 0, first) == Some(a + [f])
  {
    hide Parse, Padding, Encode, Frame, Image, Writable;
    var es := a + [f] + b;
    var buf, post := Image(es) + Zeros(z), Frame(f) + Image(b) + Zeros(z);
    ImageAround(a, f, b);
    Join(Image(a), Frame(f), Image(b), Zeros(z));
    assert AllWritable(a, first) by { forall i | 0 <= i < |a| ensures a[i] == es[i] {} }
    assert es[|a|] == f;
    ParseUnpadded([], a, post, first);
    var r := |Image(a)|;
    FrameParts(f);
    FrameAt(buf, Image(a), f, Image(b) + Zeros(z));
    ParseFrame(buf, r, first, f);
    StopsAt(buf, r + HEADER + |f.data|, first, f, b, z);
    PrependTwice(a, [f], Some([]));
    PrependNothing(Some(a + [f]));
  }

  lemma Join(a: Bytes, b: Bytes, c: Bytes, d: Bytes)
    ensures a + (b + c) + d == [] + a + (b + c + d)
    ensures a + (b + c) + d == a + b + (c + d)
  {
  }

  /** Where a frame and its padding are. */
  lemma FrameAt(buf: Bytes, pre: Bytes, f: Entry, post: Bytes)
    requires buf == pre + Frame(f) + post
    ensures |pre| + HEADER + |f.data| + Padding(f) <= |buf|
    ensures buf[|pre|..|pre| + HEADER + |f.data|] == Encode(|f.data|, 8) + Encode(f.sequence, 8) + f.data
    ensures buf[|pre| + HEADER + |f.data|..] == Zeros(Padding(f)) + post
  {
    hide Encode, Padding;
  }

  lemma StopsAt(buf: Bytes, q: nat, first: bool, f: Entry, b: seq<Entry>, z: nat)
    requires q + Padding(f) <= |buf| && buf[q..] == Zeros(Padding(f)) + (Image(b) + Zeros(z))
    requires Padding(f) >= 8 || (b == [] && (Padding(f) + z == 0 || Padding(f) + z >= 8))
    ensures Parse(buf, q, first) == Some([])
  {
    hide Padding;
    if q < |buf| {
      assert forall i :: q <= i < q + 8 ==> buf[i] == buf[q..][i - q] == 0;
      ParseZeros(buf, q, first);
    }
  }

  // ---------------------------------------------------------------- sorting by sequence number

  predicate SortedBySequence(es: seq<Entry>) {
    forall i, j :: 0 <= i < j < |es| ==> es[i].sequence <= es[j].sequence
  }

  /** The order of writing: sequence numbers go up. */
  predicate Increasing(es: seq<Entry>) {
    forall i, j :: 0 <= i < j < |es| ==> es[i].sequence < es[j].sequence
  }

  lemma SortFirst(xs: seq<Entry>, ys: seq<Entry>)
    requires multiset(xs) == multiset(ys) && SortedBySequence(xs) && Increasing(ys) && ys != []
    ensures xs != [] && xs[0] == ys[0]
  {
    assert ys[0] in multiset(xs);
    var k :| 0 <= k < |xs| && xs[k] == ys[0];
    assert xs[0] in multiset(ys);
    var j :| 0 <= j < |ys| && ys[j] == xs[0];
  }

  lemma MultisetTail(xs: seq<Entry>)
    requires xs != []
    ensures multiset(xs[1..]) == multiset(xs) - multiset{xs[0]}
  {
    assert xs == [xs[0]] + xs[1..];
  }

  /** There is only one way to sort entries with different sequence numbers. */
  lemma {:induction false} SortIsUnique(xs: seq<Entry>, ys: seq<Entry>)
    requires multiset(xs) == multiset(ys) && SortedBySequence(xs) && Increasing(ys)
    ensures xs == ys
  {
    if ys == [] {
      assert |multiset(xs)| == 0;
    } else {
      SortFirst(xs, ys);
      MultisetTail(xs);
      MultisetTail(ys);
      SortIsUnique(xs[1..], ys[1..]);
      assert xs == [xs[0]] + xs[1..] && ys == [ys[0]] + ys[1..];
    }
  }

  lemma InsertionKeeps(r: seq<Entry>, i: nat, e: Entry)
    requires i <= |r| && SortedBySequence(r)
    requires (i > 0 ==> r[i - 1].sequence <= e.sequence) && forall j :: i <= j < |r| ==> r[j].sequence > e.sequence
    ensures SortedBySequence(r[..i] + [e] + r[i..]) && multiset(r[..i] + [e] + r[i..]) == multiset(r) + multiset{e}
  {
    var q := r[..i] + [e] + r[i..];
    forall j, k | 0 <= j < k < |q| ensures q[j].sequence <= q[k].sequence {
      assert q[j] == (if j < i then r[j] else if j == i then e else r[j - 1]);
      assert q[k] == (if k < i then r[k] else if k == i then e else r[k - 1]);
    }
    InsertionMultiset(r, i, e);
  }

  lemma InsertionMultiset(r: seq<Entry>, i: nat, e: Entry)
    requires i <= |r|
    ensures multiset(r[..i] + [e] + r[i..]) == multiset(r) + multiset{e}
  {
    assert r == r[..i] + r[i..];
  }

  method InsertSorted(r: seq<Entry>, e: Entry) returns (q: seq<Entry>)
    requires SortedBySequence(r)
    ensures SortedBySequence(q) && multiset(q) == multiset(r) + multiset{e}
  {
    var i: nat := |r|;
    while i > 0 && r[i - 1].sequence > e.sequence
      invariant i <= |r| && forall j :: i <= j < |r| ==> r[j].sequence > e.sequence
    {
      i := i - 1;
    }
    InsertionKeeps(r, i, e);
    q := r[..i] + [e] + r[i..];
  }

  /** Whatever the library's sort does: the same entries, in order. */
  method SortEntries(es: seq<Entry>) returns (r: seq<Entry>)
    ensures IsSorting(r, es)
  {
    r := [];
    for n := 0 to |es|
      invariant multiset(r) == multiset(es[..n]) && SortedBySequence(r)
    {
      r := InsertSorted(r, es[n]);
      assert es[..n + 1] == es[..n] + [es[n]];
    }
    assert es[..|es|] == es;
  }

  /** One chunk: read the frames, sort the entries. */
  method RecoverWALChunk(buf: Bytes, first: bool) returns (entries: Option<seq<Entry>>)
    ensures entries.None? <==> Parse(buf, 0, first).None?
    ensures entries.Some? ==> IsSorting(entries.value, Parse(buf, 0, first).value)
  {
    entries := ReadEntries(buf, first);
    if entries.Some? {
      var sorted := SortEntries(entries.value);
      entries := Some(sorted);
    }
  }

  predicate IsSorting(r: seq<Entry>, es: seq<Entry>) {
    multiset(r) == multiset(es) && SortedBySequence(r)
  }

  // ---------------------------------------------------------------- what is recovered, exactly

  /** No frame ends less than 8 bytes before a block boundary, other than on it. */
  predicate NoSlivers(es: seq<Entry>) {
    forall i :: 0 <= i < |es| ==> Padding(es[i]) == 0 || Padding(es[i]) >= 8
  }

  /** The entries written between two barriers (in the order of writing), as the device stored them. */
  predicate Stored(group: seq<Entry>, order: seq<Entry>, first: bool) {
    multiset(order) == multiset(group) && Increasing(group) && AllWritable(order, first) && order != []
  }

  /** What is read: everything up to the first padded frame. */
  lemma ReadUpToPadding(order: seq<Entry>, blocks: nat, first: bool)
    requires order != [] && AllWritable(order, first) && NoSlivers(order)
    ensures Parse(Image(order) + Zeros(BLOCK * blocks), 0, first) == Some(order[..FirstPadded(order, 0) + 1])
  {
    hide Parse, Padding, Writable, Image;
    var i := FirstPadded(order, 0);
    var f, b := order[i], order[i + 1..];
    assert order == order[..i] + [f] + b;
    assert order[..i] + [f] == order[..i + 1];
    ParseStops(order[..i], f, b, BLOCK * blocks, first);
  }

  /** The chunk gives the entries back, in the order of writing, if and only if no frame but the last one on the
      device is padded: what follows a padded frame is never read. */
  lemma RecoveredIff(group: seq<Entry>, order: seq<Entry>, blocks: nat, first: bool, es: seq<Entry>, r: seq<Entry>)
    requires Stored(group, order, first) && NoSlivers(order)
    requires Parse(Image(order) + Zeros(BLOCK * blocks), 0, first) == Some(es) && IsSorting(r, es)
    ensures r == group <==> Unpadded(order[..|order| - 1])
  {
    hide Parse, Padding, Writable, Image;
    ReadUpToPadding(order, blocks, first);
    var n, i := |order| - 1, FirstPadded(order, 0);
    if i == n {
      assert order[..i + 1] == order;
      SortIsUnique(r, group);
    } else {
      assert |multiset(r)| == i + 1 && |multiset(group)| == |multiset(order)| == n + 1;
      assert order[..n][i] == order[i];
    }
  }

  /** The first padded entry, or the last entry. */
  function FirstPadded(es: seq<Entry>, k: nat): (i: nat)
    requires k < |es| && Unpadded(es[..k])
    ensures i < |es| && Unpadded(es[..i]) && (i < |es| - 1 ==> Padding(es[i]) != 0)
    decreases |es| - k
  {
    if k == |es| - 1 || Padding(es[k]) != 0 then k else
      assert es[..k + 1] == es[..k] + [es[k]];
      FirstPadded(es, k + 1)
  }

  /** Recovery gives the group back: sorting what is read from the chunk (followed by empty blocks) yields it. */
  predicate Recovers(group: seq<Entry>, order: seq<Entry>, blocks: nat, first: bool) {
    var read := Parse(Image(order) + Zeros(BLOCK * blocks), 0, first);
    read.Some? && IsSorting(group, read.value)
  }

  /** Without padding the order the device chose does not matter. */
  lemma UnpaddedRecovers(group: seq<Entry>, order: seq<Entry>, blocks: nat, first: bool)
    requires multiset(order) == multiset(group) && Increasing(group) && AllWritable(group, first) && group != []
    requires Unpadded(group)
    ensures Recovers(group, order, blocks, first)
  {
    hide Padding, Writable, Parse, Image;
    assert |order| == |multiset(order)| == |multiset(group)| == |group|;
    forall i | 0 <= i < |order|
      ensures Padding(order[i]) == 0 && Writable(order[i]) && (order[i].sequence > 0 || first)
    {
      assert order[i] in multiset(group);
    }
    ReadUpToPadding(order, blocks, first);
    assert FirstPadded(order, 0) == |order| - 1;
    assert order[..|order|] == order;
  }

  lemma {:induction false} DecodeShifted(p: nat, s: Bytes)
    ensures Decode(Zeros(p) + s) == Pow256(p) * Decode(s)
  {
    if p == 0 {
      assert Zeros(p) + s == s;
    } else {
      assert (Zeros(p) + s)[1..] == Zeros(p - 1) + s;
      DecodeShifted(p - 1, s);
    }
  }

  lemma {:induction false} EncodePrefix(n: nat, k: nat, j: nat)
    requires j <= k
    ensures Encode(n, k)[..j] == Encode(n, j)
  {
    if j > 0 {
      EncodePrefix(n / 256, k - 1, j - 1);
      assert Encode(n, k)[..j] == [n % 256] + Encode(n / 256, k - 1)[..j - 1];
    }
  }

  lemma {:induction false} Pow256Grows(j: nat, k: nat)
    requires j <= k
    ensures Pow256(j) <= Pow256(k) && (j < k ==> 256 * Pow256(j) <= Pow256(k))
    decreases k
  {
    if j < k { Pow256Grows(j, k - 1); }
  }

  lemma Exceeds(q: nat, d: nat, n: nat)
    requires q > 1 && d > 0 && (d == n || n < q)
    ensures q * d > n
  {
    if d == n {
      assert (q - 1) * d > 0;
    } else {
      assert q * (d - 1) >= 0;
    }
  }

  /** The size decoded across 1 to 7 zeros and the header after them is zero or larger than the size meant. */
  lemma SliverSize(p: nat, n: nat)
    requires 0 < p < 8 && 0 < n < 0x1_0000_0000
    ensures var d := Decode(Zeros(p) + Encode(n, 8)[..8 - p]); d == 0 || d > n
  {
    hide Decode, Encode, Pow256;
    var s := Encode(n, 8)[..8 - p];
    DecodeShifted(p, s);
    EncodePrefix(n, 8, 8 - p);
    Width(n);
    Pow256Grows(0, p);
    if p <= 4 {
      Pow256Grows(4, 8 - p);
      DecodeEncode(n, 8 - p);
      Exceeds(Pow256(p), n, n);
    } else if Decode(s) > 0 {
      Pow256Grows(4, p);
      Exceeds(Pow256(p), Decode(s), n);
    }
  }

  /** Reading from q on ends there, fails, or yields first an entry with more than n bytes. */
  predicate Astray(buf: Bytes, q: nat, first: bool, n: nat) {
    var rest := Parse(buf, q, first);
    rest == None || rest == Some([]) || |rest.value[0].data| > n
  }

  /** Reading on from the padding of f goes astray at the entry b after it. */
  lemma GoesAstray(buf: Bytes, q: nat, first: bool, p: nat, b: Entry, post: Bytes)
    requires q <= |buf| && buf[q..] == Zeros(p) + (Frame(b) + post)
    requires p > 0 && Writable(b)
    ensures Astray(buf, q, first, |b.data|)
  {
    hide Encode, Decode, Padding, Pow256;
    var tail := buf[q..];
    assert buf[q..q + 8] == tail[..8];
    if p >= 8 {
      DecodeZeros(tail[..8]);
    } else {
      assert tail[..8] == Zeros(p) + Encode(|b.data|, 8)[..8 - p];
      SliverSize(p, |b.data|);
    }
  }

  /** The last of the largest entries. */
  function Largest(es: seq<Entry>): (i: nat)
    requires es != []
    ensures i < |es| && forall j :: 0 <= j < |es| ==> |es[j].data| <= |es[i].data|
  {
    var n := |es| - 1;
    if n == 0 then 0 else
      var i := Largest(es[..n]);
      assert forall j :: 0 <= j < n ==> es[..n][j] == es[j];
      if |es[i].data| <= |es[n].data| then n else i
  }

  lemma Pulled(es: seq<Entry>, k: nat)
    requires k < |es|
    ensures multiset([es[k]] + (es[..k] + es[k + 1..])) == multiset(es)
  {
    assert es == es[..k] + [es[k]] + es[k + 1..];
  }

  /** What is read after f cannot be the other entries: it starts with something larger than all of them. */
  lemma AstrayLoses(group: seq<Entry>, f: Entry, others: seq<Entry>, rest: seq<Entry>, n: nat)
    requires multiset([f] + others) == multiset(group) && others != []
    requires forall i :: 0 <= i < |others| ==> |others[i].data| <= n
    requires rest == [] || |rest[0].data| > n
    ensures multiset([f] + rest) != multiset(group)
  {
    assert multiset([f] + rest) - multiset{f} == multiset(rest);
    assert multiset([f] + others) - multiset{f} == multiset(others);
    assert others[0] in multiset(others);
    if rest != [] { assert rest[0] in multiset(rest); }
  }

  /** What is read from a chunk that starts with a padded frame f. */
  lemma ReadAstray(f: Entry, b: Entry, far: seq<Entry>, blocks: nat, first: bool) returns (rest: Option<seq<Entry>>)
    requires Writable(f) && (f.sequence > 0 || first) && Padding(f) != 0 && Writable(b)
    ensures Parse(Image([f] + ([b] + far)) + Zeros(BLOCK * blocks), 0, first) == Prepend([f], rest)
    ensures rest == None || rest == Some([]) || |rest.value[0].data| > |b.data|
  {
    hide Padding, Frame, Parse, Writable, Pow256, Encode, Image;
    var post := Image(far) + Zeros(BLOCK * blocks);
    var buf := Image([f] + ([b] + far)) + Zeros(BLOCK * blocks);
    ImageOfTwo(f, b, far);
    Lined(Frame(f), Frame(b), Image(far), Zeros(BLOCK * blocks));
    FrameAt(buf, [], f, Frame(b) + post);
    ParseFrame(buf, 0, first, f);
    var q := HEADER + |f.data|;
    GoesAstray(buf, q, first, Padding(f), b, post);
    rest := Parse(buf, q, first);
  }

  lemma ImageOfTwo(f: Entry, b: Entry, far: seq<Entry>)
    ensures Image([f] + ([b] + far)) == Frame(f) + (Frame(b) + Image(far))
  {
    hide Frame;
    assert ([f] + ([b] + far))[1..] == [b] + far;
    assert ([b] + far)[1..] == far;
  }

  lemma Lined(f: Bytes, b: Bytes, far: Bytes, z: Bytes)
    ensures f + (b + far) + z == [] + f + (b + (far + z))
  {
  }

  /** A padded frame among several: the device may store it first and the largest of the others after it, and
      then the group is not recovered. */
  lemma SomeOrderLost(group: seq<Entry>, k: nat, blocks: nat, first: bool) returns (order: seq<Entry>)
    requires |group| >= 2 && k < |group| && Padding(group[k]) != 0 && AllWritable(group, first)
    ensures multiset(order) == multiset(group) && !Recovers(group, order, blocks, first)
  {
    hide Padding, Image, Parse, Writable;
    var f, others := group[k], group[..k] + group[k + 1..];
    var m := Largest(others);
    var b, far := others[m], others[..m] + others[m + 1..];
    order := [f] + ([b] + far);
    Pulled(group, k);
    Pulled(others, m);
    assert multiset(order) == multiset{f} + multiset([b] + far) == multiset([f] + others);
    assert b in multiset(others) && b in multiset(group);
    var rest := ReadAstray(f, b, far, blocks, first);
    if rest.Some? { AstrayLoses(group, f, others, rest.value, |b.data|); }
  }

  /** With two or more entries in a chunk: recovery is safe from the device's choice of order if and only if no
      frame is padded. */
  lemma EveryOrderIff(group: seq<Entry>, blocks: nat, first: bool)
    requires |group| >= 2 && Increasing(group) && AllWritable(group, first)
    ensures Unpadded(group) <==>
            forall order: seq<Entry> | multiset(order) == multiset(group) :: Recovers(group, order, blocks, first)
  {
    hide Padding, Writable, Recovers;
    if Unpadded(group) {
      forall order: seq<Entry> | multiset(order) == multiset(group) ensures Recovers(group, order, blocks, first) {
        UnpaddedRecovers(group, order, blocks, first);
      }
    } else {
      var k :| 0 <= k < |group| && Padding(group[k]) != 0;
      var order := SomeOrderLost(group, k, blocks, first);
    }
  }

  /** An input on which an order is lost: two entries of one byte each. */
  lemma OrderLostExample() returns (order: seq<Entry>)
    ensures Increasing([Entry(1, [7]), Entry(2, [9])]) && AllWritable([Entry(1, [7]), Entry(2, [9])], false)
    ensures multiset(order) == multiset([Entry(1, [7]), Entry(2, [9])])
    ensures !Recovers([Entry(1, [7]), Entry(2, [9])], order, 0, false)
  {
    hide Recovers;
    Width(2);
    order := SomeOrderLost([Entry(1, [7]), Entry(2, [9])], 0, 0, false);
  }

  // ---------------------------------------------------------------- the whole log

  /** The bytes of the entries, one after the other. */
  function Data(es: seq<Entry>): Bytes {
    if es == [] then [] else es[0].data + Data(es[1..])
  }

  lemma {:induction false} DataConcat(a: seq<Entry>, b: seq<Entry>)
    ensures Data(a + b) == Data(a) + Data(b)
  {
    if a == [] {
      assert a + b == b;
    } else {
      assert (a + b)[0] == a[0] && (a + b)[1..] == a[1..] + b;
      DataConcat(a[1..], b);
    }
  }

  function Stream(groups: seq<seq<Entry>>): Bytes {
    if groups == [] then [] else Stream(groups[..|groups| - 1]) + Data(groups[|groups| - 1])
  }
}
