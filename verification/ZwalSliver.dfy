/**
 A chunk with one byte of padding in the middle that is recovered all the same.

 After a frame that ends one byte before a block boundary the size and the number of the next frame are read one
 byte too early, both 256 times too large.  Here a third entry has just that size and that number, and its data
 repeats what lies before it with a period of 4097 bytes, so that the misread entry is the third one and reading
 comes back to the second one inside the third.
 */
module ZwalSliver {
  import opened Basics
  import opened Coding
  import opened ZwalRecovery

  const PERIOD: nat := 4097

  const LEAD: Entry := Entry(2, Zeros(4079))
  const SMALL: Entry := Entry(1, Zeros(240))
  const ECHO: Entry := Entry(256, seq(61440, k requires k >= 0 => Beat(k)))

  /** One period: zeros, the low bytes of 256 * 240 and of 256 * 1. */
  function Beat(k: nat): Byte {
    if k % PERIOD == 4082 then 240 else if k % PERIOD == 4090 then 1 else 0
  }

  lemma {:induction false} EncodeZero(k: nat)
    ensures Encode(0, k) == Zeros(k)
  {
    if k > 0 { EncodeZero(k - 1); }
  }

  lemma EncodePair(n: nat)
    requires n < 65536
    ensures Encode(n, 8) == [n % 256, n / 256] + Zeros(6)
  {
    EncodeZero(6);
    assert Encode(n / 256, 7) == [n / 256] + Encode(0, 6);
  }

  lemma DecodePair(s: Bytes)
    requires |s| == 8 && forall i :: 2 <= i < 8 ==> s[i] == 0
    ensures Decode(s) == s[0] as int + 256 * s[1] as int
  {
    DecodeZeros(s[1..][1..]);
    assert Decode(s[1..]) == s[1..][0];
  }

  /** The device from the end of LEAD's data on. */
  predicate Periodic(buf: Bytes) {
    |buf| >= 69648 && forall i :: 4095 <= i < 69648 ==> buf[i] == Beat(i - 14)
  }

  lemma SmallFrame(i: nat)
    requires i < 4096
    ensures |Frame(SMALL)| == 4096 && Frame(SMALL)[i] == Beat(i + 4082)
  {
    EncodePair(240);
    EncodePair(1);
  }

  lemma EchoFrame(i: nat)
    requires i < 61456
    ensures |Frame(ECHO)| == 65536 && Frame(ECHO)[i] == Beat(i + 4081)
  {
    EncodePair(61440);
    EncodePair(256);
  }

  lemma LeadFrame()
    ensures Padding(LEAD) == 1 && |Frame(LEAD)| == 4096 && Frame(LEAD)[4095] == 0
  {
  }

  lemma ImageIs()
    ensures Image([LEAD, SMALL, ECHO]) == Frame(LEAD) + (Frame(SMALL) + (Frame(ECHO) + []))
  {
    hide Frame;
    assert [LEAD, SMALL, ECHO][1..] == [SMALL, ECHO] && [SMALL, ECHO][1..] == [ECHO] && [ECHO][1..] == [];
    assert Image([SMALL, ECHO]) == Frame(SMALL) + Image([ECHO]);
  }

  lemma BeatRepeats(k: nat)
    ensures Beat(k + PERIOD) == Beat(k)
  {
  }

  lemma ImagePeriodic()
    ensures Periodic(Image([LEAD, SMALL, ECHO]))
  {
    hide Frame, Beat, Image;
    ImageIs();
    LeadFrame();
    SmallFrame(0);
    EchoFrame(0);
    var buf := Image([LEAD, SMALL, ECHO]);
    forall i | 4095 <= i < 69648 ensures buf[i] == Beat(i - 14) {
      if i < 4096 {
        BeatOne();
      } else if i < 8192 {
        SmallFrame(i - 4096);
      } else {
        EchoFrame(i - 8192);
        BeatRepeats(i - 14 - PERIOD);
      }
    }
  }

  lemma BeatOne()
    ensures Beat(4081) == 0
  {
  }

  /** The entry read at r is e, if the bytes there are e's header and data. */
  lemma ReadAt(buf: Bytes, r: nat, e: Entry)
    requires e.sequence > 0 && e.data != [] && r + HEADER + |e.data| <= |buf|
    requires Decode(buf[r..r + 8]) == |e.data| && Decode(buf[r + 8..r + HEADER]) == e.sequence
    requires buf[r + HEADER..r + HEADER + |e.data|] == e.data
    ensures Parse(buf, r, false) == Prepend([e], Parse(buf, r + HEADER + |e.data|, false))
  {
    hide Decode;
  }

  lemma ReadEcho(buf: Bytes)
    requires Periodic(buf)
    ensures Parse(buf, 4095, false) == Prepend([ECHO], Parse(buf, 65551, false))
  {
    hide Parse;
    DecodePair(buf[4095..4103]);
    DecodePair(buf[4103..4111]);
    forall k | 0 <= k < 61440 ensures buf[4111..65551][k] == ECHO.data[k] {
      BeatRepeats(k);
    }
    ReadAt(buf, 4095, ECHO);
  }

  lemma ReadSmall(buf: Bytes)
    requires Periodic(buf)
    ensures Parse(buf, 65551, false) == Prepend([SMALL], Some([]))
  {
    hide Parse;
    DecodePair(buf[65551..65559]);
    DecodePair(buf[65559..65567]);
    assert buf[65567..65807] == SMALL.data;
    ReadAt(buf, 65551, SMALL);
    ParseZeros(buf, 65807, false);
  }

  lemma ReadAll()
    ensures Parse(Image([LEAD, SMALL, ECHO]), 0, false) == Some([LEAD, ECHO, SMALL])
  {
    hide Parse, Image, Frame, Padding, Encode, Decode, Beat, Pow256, Periodic;
    var buf := Image([LEAD, SMALL, ECHO]);
    ImagePeriodic();
    ImageIs();
    var post := Frame(SMALL) + (Frame(ECHO) + []);
    assert buf == [] + Frame(LEAD) + post;
    FrameAt(buf, [], LEAD, post);
    WidthOfNumbers();
    ParseFrame(buf, 0, false, LEAD);
    ReadEcho(buf);
    ReadSmall(buf);
    PrependTwice([ECHO], [SMALL], Some([]));
    PrependTwice([LEAD], [ECHO] + [SMALL], Some([]));
    assert [LEAD] + ([ECHO] + [SMALL]) + [] == [LEAD, ECHO, SMALL];
  }

  lemma WidthOfNumbers()
    ensures 256 < Pow256(8)
  {
    Width(256);
  }

  lemma TheyAreStored()
    ensures Stored([SMALL, LEAD, ECHO], [LEAD, SMALL, ECHO], false)
    ensures IsSorting([SMALL, LEAD, ECHO], [LEAD, ECHO, SMALL])
  {
    hide Zeros, Beat, Pow256;
    WidthOfNumbers();
  }

  /** The condition on slivers in RecoveredIff is needed: a frame that is not the last one is padded, and yet the
      chunk gives all entries back. */
  lemma SliverRecovered()
    ensures Stored([SMALL, LEAD, ECHO], [LEAD, SMALL, ECHO], false)
    ensures Padding(LEAD) == 1 && !Unpadded([LEAD, SMALL, ECHO][..2])
    ensures Recovers([SMALL, LEAD, ECHO], [LEAD, SMALL, ECHO], 0, false)
  {
    hide Parse, Image, Frame, Padding, Stored, IsSorting;
    LeadFrame();
    assert [LEAD, SMALL, ECHO][..2][0] == LEAD;
    assert Image([LEAD, SMALL, ECHO]) + Zeros(BLOCK * 0) == Image([LEAD, SMALL, ECHO]);
    ReadAll();
    TheyAreStored();
  }
}
