/** Little-endian fixed-width integers, as EncodeFixed64 and DecodeFixed64 write and read them. */
module Coding {
  type Byte = b: int | 0 <= b < 256

  type Bytes = seq<Byte>

  function Pow256(k: nat): (p: nat)
    ensures p > 0
  {
    if k == 0 then 1 else 256 * Pow256(k - 1)
  }

  /** The k low bytes of n. */
  function Encode(n: nat, k: nat): (s: Bytes)
    ensures |s| == k
  {
    if k == 0 then [] else [n % 256] + Encode(n / 256, k - 1)
  }

  function Decode(s: Bytes): nat {
    if s == [] then 0 else s[0] + 256 * Decode(s[1..])
  }

  lemma {:induction false} DecodeEncode(n: nat, k: nat)
    requires n < Pow256(k)
    ensures Decode(Encode(n, k)) == n
  {
    if k > 0 {
      DecodeEncode(n / 256, k - 1);
      assert Encode(n, k)[1..] == Encode(n / 256, k - 1);
    }
  }

  lemma {:induction false} EncodeDecode(s: Bytes)
    ensures Decode(s) < Pow256(|s|) && Encode(Decode(s), |s|) == s
  {
    if s != [] {
      EncodeDecode(s[1..]);
      var d := Decode(s[1..]);
      assert Decode(s) == s[0] + 256 * d;
      assert s == [s[0]] + s[1..];
    }
  }
}
