/**
 Internal keys: a user key, a sequence number and a type, ordered by user key, then by decreasing sequence
 number, then by decreasing type; and the keys that lookups seek to.
 */
module InternalKey {
  import opened Coding

  datatype ParsedInternalKey = Parsed(user: Bytes, sequence: nat, kind: nat)

  const MAX_SEQUENCE: nat := 0xFF_FFFF_FFFF_FFFF     // 2^56 - 1
  const TYPE_FOR_SEEK: nat := 0x16                   // kTypeWideColumnEntity

  /** A user comparator: negative, zero or positive. */
  type Comparator = (Bytes, Bytes) -> int

  /** The order is total; different keys may compare equal (as when timestamps are ignored). */
  ghost predicate TotalOrder(cmp: Comparator) {
    && (forall a, b :: cmp(a, b) < 0 <==> cmp(b, a) > 0)
    && (forall a, b, c :: cmp(a, b) <= 0 && cmp(b, c) <= 0 ==> cmp(a, c) <= 0)
  }

  /** (sequence << 8) | type. */
  function Pack(sequence: nat, kind: nat): nat {
    sequence * 256 + kind
  }

  predicate InRange(k: ParsedInternalKey) {
    k.sequence <= MAX_SEQUENCE && k.kind < 256
  }

  function AppendInternalKey(k: ParsedInternalKey): Bytes {
    k.user + Encode(Pack(k.sequence, k.kind), 8)
  }

  function ExtractUserKey(s: Bytes): Bytes
    requires |s| >= 8
  {
    s[..|s| - 8]
  }

  function ExtractFooter(s: Bytes): nat
    requires |s| >= 8
  {
    Decode(s[|s| - 8..])
  }

  /** The parts ParseInternalKey takes a packed key apart into. */
  function Unpacked(s: Bytes): ParsedInternalKey
    requires |s| >= 8
  {
    Parsed(ExtractUserKey(s), ExtractFooter(s) / 256, ExtractFooter(s) % 256)
  }

  // ---------------------------------------------------------------- the three comparisons

  function Compare(cmp: Comparator, a: ParsedInternalKey, b: ParsedInternalKey): int {
    var r := cmp(a.user, b.user);
    if r != 0 then r
    else if a.sequence > b.sequence then -1
    else if a.sequence < b.sequence then 1
    else if a.kind > b.kind then -1
    else if a.kind < b.kind then 1
    else 0
  }

  function ComparePacked(cmp: Comparator, a: Bytes, b: ParsedInternalKey): int
    requires |a| >= 8
  {
    var r := cmp(ExtractUserKey(a), b.user);
    if r != 0 then r
    else if ExtractFooter(a) > Pack(b.sequence, b.kind) then -1
    else if ExtractFooter(a) < Pack(b.sequence, b.kind) then 1
    else 0
  }

  function CompareWithPacked(cmp: Comparator, a: ParsedInternalKey, b: Bytes): int
    requires |b| >= 8
  {
    -ComparePacked(cmp, b, a)
  }

  lemma Pow256Of8()
    ensures Pow256(8) == 256 * (MAX_SEQUENCE + 1)
  {
    assert Pow256(8) == 256 * (256 * (256 * (256 * Pow256(4)))) && Pow256(4) == 256 * (256 * (256 * (256 * Pow256(0))));
  }

  /** The packed form keeps what it was made from. */
  lemma AppendThenExtract(k: ParsedInternalKey)
    requires InRange(k)
    ensures ExtractUserKey(AppendInternalKey(k)) == k.user
    ensures ExtractFooter(AppendInternalKey(k)) == Pack(k.sequence, k.kind)
    ensures Unpacked(AppendInternalKey(k)) == k
  {
    Pow256Of8();
    DecodeEncode(Pack(k.sequence, k.kind), 8);
    var s := AppendInternalKey(k);
    assert s[|s| - 8..] == Encode(Pack(k.sequence, k.kind), 8);
  }

  /** And every slice of at least eight bytes is the packed form of what it is taken apart into. */
  lemma ExtractThenAppend(s: Bytes)
    requires |s| >= 8
    ensures InRange(Unpacked(s)) && AppendInternalKey(Unpacked(s)) == s
  {
    hide Encode, Decode, Pow256;
    Pow256Of8();
    EncodeDecode(s[|s| - 8..]);
    assert s == s[..|s| - 8] + s[|s| - 8..];
  }

  /** Packed numbers compare as sequence and type do. */
  lemma PackOrder(a: ParsedInternalKey, b: ParsedInternalKey)
    requires a.kind < 256 && b.kind < 256
    ensures Pack(a.sequence, a.kind) > Pack(b.sequence, b.kind) <==>
      a.sequence > b.sequence || (a.sequence == b.sequence && a.kind > b.kind)
  {
  }

  predicate SameSign(x: int, y: int) {
    (x < 0 <==> y < 0) && (x > 0 <==> y > 0)
  }

  /** For sequence numbers below 2^56 the packed comparisons agree with the parsed one. */
  lemma FormsAgree(cmp: Comparator, a: ParsedInternalKey, b: ParsedInternalKey)
    requires InRange(a) && InRange(b) && TotalOrder(cmp)
    ensures ComparePacked(cmp, AppendInternalKey(a), b) == Compare(cmp, a, b)
    ensures SameSign(CompareWithPacked(cmp, a, AppendInternalKey(b)), Compare(cmp, a, b))
  {
    AppendThenExtract(a);
    AppendThenExtract(b);
    PackOrder(a, b);
    PackOrder(b, a);
    assert cmp(a.user, b.user) < 0 <==> cmp(b.user, a.user) > 0;
    assert cmp(b.user, a.user) < 0 <==> cmp(a.user, b.user) > 0;
  }

  /** So the packed comparison of any two slices of at least eight bytes is that of their parts. */
  lemma SlicesAgree(cmp: Comparator, a: Bytes, b: Bytes)
    requires |a| >= 8 && |b| >= 8 && TotalOrder(cmp)
    ensures ComparePacked(cmp, a, Unpacked(b)) == Compare(cmp, Unpacked(a), Unpacked(b))
    ensures SameSign(CompareWithPacked(cmp, Unpacked(a), b), Compare(cmp, Unpacked(a), Unpacked(b)))
  {
    hide AppendInternalKey, Unpacked, Compare, ComparePacked, CompareWithPacked, InRange;
    ExtractThenAppend(a);
    ExtractThenAppend(b);
    FormsAgree(cmp, Unpacked(a), Unpacked(b));
  }

  // ---------------------------------------------------------------- a total order

  lemma CompareAntisymmetric(cmp: Comparator, a: ParsedInternalKey, b: ParsedInternalKey)
    requires TotalOrder(cmp)
    ensures Compare(cmp, a, b) < 0 <==> Compare(cmp, b, a) > 0
    ensures Compare(cmp, a, b) == 0 <==> cmp(a.user, b.user) == 0 && a.sequence == b.sequence && a.kind == b.kind
  {
    assert cmp(a.user, b.user) < 0 <==> cmp(b.user, a.user) > 0;
    assert cmp(b.user, a.user) < 0 <==> cmp(a.user, b.user) > 0;
  }

  lemma CompareTransitive(cmp: Comparator, a: ParsedInternalKey, b: ParsedInternalKey, c: ParsedInternalKey)
    requires TotalOrder(cmp) && Compare(cmp, a, b) <= 0 && Compare(cmp, b, c) <= 0
    ensures Compare(cmp, a, c) <= 0
  {
    assert cmp(a.user, c.user) <= 0;
    if cmp(a.user, c.user) == 0 {
      assert cmp(c.user, a.user) <= 0 by { assert cmp(a.user, c.user) < 0 <==> cmp(c.user, a.user) > 0; }
      assert cmp(b.user, a.user) <= 0 && cmp(c.user, b.user) <= 0;
      assert cmp(a.user, b.user) < 0 <==> cmp(b.user, a.user) > 0;
      assert cmp(b.user, c.user) < 0 <==> cmp(c.user, b.user) > 0;
    }
  }

  // ---------------------------------------------------------------- seeking

  ghost predicate Sorted(cmp: Comparator, list: seq<ParsedInternalKey>) {
    forall i, j :: 0 <= i < j < |list| ==> Compare(cmp, list[i], list[j]) <= 0
  }

  /** Where a seek for k ends: at the first entry that is not less than k. */
  ghost predicate SeeksTo(cmp: Comparator, list: seq<ParsedInternalKey>, k: ParsedInternalKey, i: nat) {
    && i <= |list| && (forall j :: 0 <= j < i ==> Compare(cmp, list[j], k) < 0)
    && (i < |list| ==> Compare(cmp, list[i], k) >= 0)
  }

  /** The internal key of LookupKey(user, s). */
  function LookupKey(user: Bytes, s: nat): ParsedInternalKey {
    Parsed(user, s, TYPE_FOR_SEEK)
  }

  /** An entry for the user key that a read at sequence s may see. */
  predicate Readable(cmp: Comparator, k: ParsedInternalKey, user: Bytes, s: nat) {
    cmp(k.user, user) == 0 && k.sequence <= s
  }

  /** A readable entry is not less than the lookup key exactly when its type, if its sequence is s, is at most the
      type used for seeking. */
  lemma ReadableNotLess(cmp: Comparator, k: ParsedInternalKey, user: Bytes, s: nat)
    requires Readable(cmp, k, user, s)
    ensures Compare(cmp, k, LookupKey(user, s)) >= 0 <==> k.sequence < s || k.kind <= TYPE_FOR_SEEK
  {
  }

  /** What a seek to LookupKey(user, s) that ends at i promises: the entry there is the newest readable one if it is
      for the user key; and otherwise no entry is readable. */
  ghost predicate FindsNewest(cmp: Comparator, list: seq<ParsedInternalKey>, user: Bytes, s: nat, i: nat) {
    && (i < |list| && cmp(list[i].user, user) == 0 ==> NewestAt(cmp, list, user, s, i))
    && (i >= |list| || cmp(list[i].user, user) != 0 ==>
          forall j :: 0 <= j < |list| ==> !Readable(cmp, list[j], user, s))
  }

  ghost predicate NewestAt(cmp: Comparator, list: seq<ParsedInternalKey>, user: Bytes, s: nat, i: nat)
    requires i < |list|
  {
    && Readable(cmp, list[i], user, s)
    && forall j :: 0 <= j < |list| && Readable(cmp, list[j], user, s) ==> list[j].sequence <= list[i].sequence
  }

  /** The entry is for the user key at sequence s, with a type above the one used for seeking, or not above it. */
  predicate At(cmp: Comparator, k: ParsedInternalKey, user: Bytes, s: nat, above: bool) {
    cmp(k.user, user) == 0 && k.sequence == s && (above <==> k.kind > TYPE_FOR_SEEK)
  }

  ghost predicate HasAt(cmp: Comparator, list: seq<ParsedInternalKey>, user: Bytes, s: nat, above: bool) {
    exists j :: 0 <= j < |list| && At(cmp, list[j], user, s, above)
  }

  /** The list is sorted, and the seek ends at i. */
  ghost predicate Seek(cmp: Comparator, list: seq<ParsedInternalKey>, user: Bytes, s: nat, i: nat) {
    TotalOrder(cmp) && Sorted(cmp, list) && SeeksTo(cmp, list, LookupKey(user, s), i)
  }

  /** A readable entry that is not less than the lookup key is at i or after it, and then i is for the user key and
      at least as new. */
  lemma AtOrAfter(cmp: Comparator, list: seq<ParsedInternalKey>, user: Bytes, s: nat, i: nat, j: nat)
    requires Seek(cmp, list, user, s, i) && j < |list| && Readable(cmp, list[j], user, s)
    requires list[j].sequence < s || list[j].kind <= TYPE_FOR_SEEK
    ensures i <= j && cmp(list[i].user, user) == 0 && list[j].sequence <= list[i].sequence
  {
    ReadableNotLess(cmp, list[j], user, s);
    if i < j {
      assert Compare(cmp, list[i], list[j]) <= 0;
      assert cmp(list[i].user, user) <= 0;
      assert cmp(list[i].user, user) >= 0;
      SameUser(cmp, list[i].user, list[j].user, user);
    }
  }

  /** What the seek ends at, if it is for the user key, is readable and not above the type used for seeking at s. */
  lemma EndsReadable(cmp: Comparator, list: seq<ParsedInternalKey>, user: Bytes, s: nat, i: nat)
    requires Seek(cmp, list, user, s, i) && i < |list| && cmp(list[i].user, user) == 0
    ensures Readable(cmp, list[i], user, s) && !At(cmp, list[i], user, s, true)
  {
  }

  /** The seek keeps its promise if and only if an entry at sequence s that it passes over, because its type is above
      the one used for seeking, comes with one at sequence s that it does not pass over. */
  lemma SeekFindsNewestIff(cmp: Comparator, list: seq<ParsedInternalKey>, user: Bytes, s: nat, i: nat)
    requires Seek(cmp, list, user, s, i)
    ensures FindsNewest(cmp, list, user, s, i) <==>
      (HasAt(cmp, list, user, s, true) ==> HasAt(cmp, list, user, s, false))
  {
    hide TotalOrder, Sorted, SeeksTo;
    forall j | 0 <= j < |list| && Readable(cmp, list[j], user, s) && !At(cmp, list[j], user, s, true)
      ensures i <= j && cmp(list[i].user, user) == 0 && list[j].sequence <= list[i].sequence
    {
      AtOrAfter(cmp, list, user, s, i, j);
    }
    if i < |list| && cmp(list[i].user, user) == 0 { EndsReadable(cmp, list, user, s, i); }
    if HasAt(cmp, list, user, s, true) {
      var j :| 0 <= j < |list| && At(cmp, list[j], user, s, true);
      assert Readable(cmp, list[j], user, s);
    }
  }

  /** IsValueType: the types of entries in memtables and data blocks. */
  predicate IsValueType(kind: nat) {
    kind <= 0x2 || kind == 0x7 || kind == 0x11 || kind == 0x14 || kind == 0x16
  }

  /** None of them is above the type used for seeking, so on what is stored every seek keeps its promise. */
  lemma SeekFindsNewest(cmp: Comparator, list: seq<ParsedInternalKey>, user: Bytes, s: nat, i: nat)
    requires Seek(cmp, list, user, s, i)
    requires forall j :: 0 <= j < |list| ==> IsValueType(list[j].kind)
    ensures FindsNewest(cmp, list, user, s, i)
  {
    SeekFindsNewestIff(cmp, list, user, s, i);
  }

  lemma SameUser(cmp: Comparator, a: Bytes, b: Bytes, u: Bytes)
    requires TotalOrder(cmp) && cmp(a, u) == 0 && cmp(b, u) == 0
    ensures cmp(a, b) == 0
  {
    assert cmp(a, u) < 0 <==> cmp(u, a) > 0;
    assert cmp(u, a) < 0 <==> cmp(a, u) > 0;
    assert cmp(b, u) < 0 <==> cmp(u, b) > 0;
    assert cmp(u, b) < 0 <==> cmp(b, u) > 0;
    assert cmp(a, b) <= 0 && cmp(b, a) <= 0;
    assert cmp(a, b) < 0 <==> cmp(b, a) > 0;
  }

  /** An input on which it is broken: a single entry of a higher type at the sought sequence. */
  lemma SeekMissesHigherType(cmp: Comparator, user: Bytes, s: nat, kind: nat)
    requires TotalOrder(cmp) && kind > TYPE_FOR_SEEK
    ensures Seek(cmp, [Parsed(user, s, kind)], user, s, 1) && !FindsNewest(cmp, [Parsed(user, s, kind)], user, s, 1)
  {
    assert cmp(user, user) < 0 <==> cmp(user, user) > 0;
    assert Readable(cmp, [Parsed(user, s, kind)][0], user, s);
  }
}
