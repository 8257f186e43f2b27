/**
 Where RecoverWALChunk's loop reads.

 Both header fields are decoded before either is tested, so a header is read even where only padding is left.
 The buffer has one byte more than the chunk.
 */
module ZwalBounds {
  import opened Coding
  import opened ZwalRecovery
  import opened ZwalLog

  /** From position r on, nothing outside the buffer is read. */
  predicate Inside(buf: Bytes, r: nat, first: bool)
    decreases |buf| - r
  {
    if r >= |buf| then true
    else if r + HEADER > |buf| + 1 then false
    else
      var size := Decode(buf[r..r + 8]);
      || size == 0
      || (r + HEADER <= |buf| &&
          var sequence := Decode(buf[r + 8..r + HEADER]);
          || (sequence == 0 && !first)
          || (r + HEADER + size <= |buf| + 1 && Inside(buf, r + HEADER + size, first)))
  }

  /** A frame is inside; what matters is what comes after its data. */
  lemma InsideFrame(buf: Bytes, r: nat, first: bool, e: Entry)
    requires Writable(e) && r + HEADER + |e.data| <= |buf| && (e.sequence > 0 || first)
    requires buf[r..r + HEADER + |e.data|] == Encode(|e.data|, 8) + Encode(e.sequence, 8) + e.data
    ensures Inside(buf, r, first) <==> Inside(buf, r + HEADER + |e.data|, first)
  {
    hide Encode, Decode, Pow256;
    Width(|e.data|);
    var f := buf[r..r + HEADER + |e.data|];
    Thirds(Encode(|e.data|, 8), Encode(e.sequence, 8), e.data);
    SubSlice(buf, r, |f|, 0, 8);
    SubSlice(buf, r, |f|, 8, HEADER);
    assert f[0..8] == f[..8];
    DecodeEncode(|e.data|, 8);
    DecodeEncode(e.sequence, 8);
  }

  lemma {:induction false} UnpaddedInside(pre: Bytes, es: seq<Entry>, first: bool)
    requires AllWritable(es, first) && Unpadded(es)
    ensures Inside(pre + Image(es), |pre|, first)
    decreases |es|
  {
    hide Inside, Encode, Frame, Padding;
    var buf := pre + Image(es);
    if es == [] {
      AtEnd(buf, first);
    } else {
      var e := es[0];
      FrameParts(e);
      assert buf == (pre + Frame(e)) + Image(es[1..]);
      assert buf[|pre|..|pre| + |Frame(e)|] == Frame(e);
      UnpaddedInside(pre + Frame(e), es[1..], first);
      InsideFrame(buf, |pre|, first, e);
    }
  }

  lemma AtEnd(buf: Bytes, first: bool)
    ensures Inside(buf, |buf|, first)
  {
  }

  /** In padding at the end of a chunk a header must fit, but for its last byte. */
  lemma PaddingInside(buf: Bytes, r: nat, first: bool)
    requires r <= |buf| && forall i :: r <= i < |buf| ==> buf[i] == 0
    ensures Inside(buf, r, first) <==> r == |buf| || |buf| - r >= HEADER - 1
  {
    if r + 8 <= |buf| { DecodeZeros(buf[r..r + 8]); }
  }

  lemma SingleInside(e: Entry, first: bool)
    requires Writable(e) && (e.sequence > 0 || first)
    ensures Inside(Image([e]), 0, first) <==> Padding(e) == 0 || Padding(e) >= HEADER - 1
  {
    hide Inside, Frame, Encode, Pow256, Padding;
    var buf := Image([e]);
    assert [e][1..] == [] && buf == Frame(e) + Image([]);
    assert buf == Frame(e);
    FrameParts(e);
    InsideFrame(buf, 0, first, e);
    PaddingInside(buf, HEADER + |e.data|, first);
  }

  /** An input: 4072 bytes of data leave eight bytes of padding. */
  lemma OutsideExample()
    ensures var e := Entry(1, Zeros(4072)); Writable(e) && Padding(e) == 8 && !Inside(Image([e]), 0, false)
  {
    hide Inside, Image, Pow256;
    Width(1);
    SingleInside(Entry(1, Zeros(4072)), false);
  }

  /** A chunk from which no order of storing loses anything is read without leaving the buffer if and only if it is
      not a single entry with 8 to 14 bytes of padding. */
  lemma SafeInsideIff(group: seq<Entry>, order: seq<Entry>, first: bool)
    requires multiset(order) == multiset(group) && AllWritable(group, first) && Safe(group)
    ensures Inside(Image(order), 0, first) <==> !(|group| == 1 && 8 <= Padding(group[0]) < HEADER - 1)
  {
    hide Inside, Image, Padding, Writable;
    SameSize(order, group);
    if |group| == 1 {
      assert group == [group[0]];
      SingleInside(group[0], first);
    } else {
      forall i | 0 <= i < |order|
        ensures Writable(order[i]) && (order[i].sequence > 0 || first) && Padding(order[i]) == 0
      {
        assert order[i] in multiset(group);
      }
      UnpaddedInside([], order, first);
      assert [] + Image(order) == Image(order);
    }
  }
}
