/**
 The probe sequence of the clock table.

 A hashed key is a pair of 64-bit words.  The second word gives the base, the first one (made odd) the
 increment, and the i-th probe is base + i * increment modulo the table size, a power of two.
 */
module ClockProbe {
  datatype Key = Key(h0: nat, h1: nat)

  function Pow2(n: nat): (p: nat)
    ensures p > 0
  {
    if n == 0 then 1 else 2 * Pow2(n - 1)
  }

  /** hashed_key[0] | 1: odd, and otherwise as the hash has it. */
  function Increment(k: Key): (r: nat)
    ensures r % 2 == 1 && r / 2 == k.h0 / 2
  {
    if k.h0 % 2 == 0 then k.h0 + 1 else k.h0
  }

  /** base + i * increment, modulo the table size. */
  function At(base: nat, increment: nat, i: nat, size: nat): (r: nat)
    requires size > 0
    ensures r < size
  {
    (base + i * increment) % size
  }

  /** The slot of the i-th probe for k in a table of the given size. */
  function Probe(k: Key, i: nat, size: nat): (r: nat)
    requires size > 0
    ensures r < size
  {
    At(k.h1, Increment(k), i, size)
  }

  /** The first probe. */
  function First(k: Key, size: nat): (r: nat)
    requires size > 0
    ensures r < size
  {
    k.h1 % size
  }

  /** The slot probed after `current`. */
  function Advance(k: Key, current: nat, size: nat): (r: nat)
    requires size > 0
    ensures r < size
  {
    (current + Increment(k)) % size
  }

  // ---------------------------------------------------------------- the loop's way of probing

  lemma ModUnique(x: int, m: int, q: int, r: int)
    requires m > 0 && x == m * q + r && 0 <= r < m
    ensures x % m == r && x / m == q
  {
    var d := q - x / m;
    assert m * d == x % m - r;
    assert d > 0 ==> m * d >= m;
    assert d < 0 ==> m * d <= -m;
  }

  lemma ModStep(x: nat, a: nat, m: nat)
    requires m > 0
    ensures (x % m + a) % m == (x + a) % m
  {
    var y := x % m + a;
    assert x + a == m * (x / m) + y == m * (x / m + y / m) + y % m;
    ModUnique(x + a, m, x / m + y / m, y % m);
  }

  lemma AtZero(b: nat, a: nat, m: nat)
    requires m > 0
    ensures At(b, a, 0, m) == b % m
  {
  }

  lemma AtNext(b: nat, a: nat, i: nat, m: nat)
    requires m > 0
    ensures (At(b, a, i, m) + a) % m == At(b, a, i + 1, m)
  {
    var x, y := b + i * a, b + (i + 1) * a;
    assert y == x + a;
    ModStep(x, a, m);
  }

  /** FindSlot and Rollback go from probe to probe by adding the increment. */
  lemma AdvanceIsNextProbe(k: Key, i: nat, size: nat)
    requires size > 0
    ensures Probe(k, 0, size) == First(k, size)
    ensures Advance(k, Probe(k, i, size), size) == Probe(k, i + 1, size)
  {
    AtZero(k.h1, Increment(k), size);
    AtNext(k.h1, Increment(k), i, size);
  }

  // ---------------------------------------------------------------- every slot exactly once

  lemma Halved(a: nat, d: nat, x: nat)
    requires a % 2 == 1 && d * a == 2 * x
    ensures d % 2 == 0 && (d / 2) * a == x
  {
    var b, e := a / 2, d / 2;
    assert d * a == 2 * (d * b) + d;
    assert d == 2 * e;
    assert d * a == 2 * (e * a);
  }

  /** An odd factor can be cancelled modulo a power of two. */
  lemma {:induction false} OddCancels(a: nat, d: nat, n: nat, m: nat) returns (q: nat)
    requires a % 2 == 1 && d * a == Pow2(n) * m
    ensures d == Pow2(n) * q
  {
    if n == 0 {
      q := d;
    } else {
      var x := Pow2(n - 1) * m;
      assert Pow2(n) * m == 2 * x;
      Halved(a, d, x);
      q := OddCancels(a, d / 2, n - 1, m);
    }
  }

  lemma MultipleBelow(d: nat, p: nat, q: nat)
    requires d == p * q && d < p
    ensures d == 0
  {
    assert q > 0 ==> p * q >= p;
  }

  lemma SameRemainder(b: nat, i: nat, j: nat, a: nat, p: nat) returns (m: nat)
    requires p > 0 && i <= j && (b + i * a) % p == (b + j * a) % p
    ensures (j - i) * a == p * m
  {
    var x, y := b + i * a, b + j * a;
    var d := y / p - x / p;
    assert y - x == p * d;
    assert y - x == (j - i) * a;
    assert (j - i) * a >= 0;
    assert d < 0 ==> p * d < 0;
    m := d;
  }

  /** No slot is probed twice in one round. */
  lemma ProbesDiffer(k: Key, n: nat, i: nat, j: nat)
    requires i < Pow2(n) && j < Pow2(n) && Probe(k, i, Pow2(n)) == Probe(k, j, Pow2(n))
    ensures i == j
  {
    if i > j { ProbesDiffer(k, n, j, i); }
    if i < j {
      var p, a := Pow2(n), Increment(k);
      var m := SameRemainder(k.h1, i, j, a, p);
      var q := OddCancels(a, j - i, n, m);
      MultipleBelow(j - i, p, q);
    }
  }

  /** The first i slots probed. */
  ghost function Probed(k: Key, i: nat, size: nat): set<nat>
    requires size > 0
  {
    if i == 0 then {} else Probed(k, i - 1, size) + {Probe(k, i - 1, size)}
  }

  lemma {:induction false} ProbedAre(k: Key, n: nat, i: nat)
    requires i <= Pow2(n)
    ensures |Probed(k, i, Pow2(n))| == i
    ensures forall h :: h in Probed(k, i, Pow2(n)) ==>
      h < Pow2(n) && exists j: nat :: j < i && Probe(k, j, Pow2(n)) == h
  {
    if i > 0 {
      ProbedAre(k, n, i - 1);
      var h := Probe(k, i - 1, Pow2(n));
      if h in Probed(k, i - 1, Pow2(n)) {
        var j: nat :| j < i - 1 && Probe(k, j, Pow2(n)) == h;
        ProbesDiffer(k, n, j, i - 1);
      }
    }
  }

  ghost function Below(m: nat): (s: set<nat>)
    ensures forall x: nat :: x in s <==> x < m
    ensures |s| == m
  {
    if m == 0 then {} else Below(m - 1) + {m - 1}
  }

  lemma SubsetOfSameSize(a: set<nat>, b: set<nat>)
    requires a <= b && |a| == |b|
    ensures a == b
  {
    assert |b - a| == |b| - |a| by { assert b == a + (b - a); }
  }

  /** Every slot is probed in one round. */
  lemma EverySlotProbed(k: Key, n: nat, h: nat)
    requires h < Pow2(n)
    ensures exists i: nat :: i < Pow2(n) && Probe(k, i, Pow2(n)) == h
  {
    var p := Pow2(n);
    ProbedAre(k, n, p);
    SubsetOfSameSize(Probed(k, p, p), Below(p));
    assert h in Probed(k, p, p);
  }

  /** When slot h is probed. */
  ghost function Turn(k: Key, h: nat, n: nat): (i: nat)
    requires h < Pow2(n)
    ensures i < Pow2(n) && Probe(k, i, Pow2(n)) == h
  {
    EverySlotProbed(k, n, h);
    var i: nat :| i < Pow2(n) && Probe(k, i, Pow2(n)) == h;
    i
  }

  lemma TurnOfProbe(k: Key, i: nat, n: nat)
    requires i < Pow2(n)
    ensures Turn(k, Probe(k, i, Pow2(n)), n) == i
  {
    ProbesDiffer(k, n, Turn(k, Probe(k, i, Pow2(n)), n), i);
  }

  lemma FirstTurn(k: Key, n: nat)
    ensures Turn(k, First(k, Pow2(n)), n) == 0
  {
    AdvanceIsNextProbe(k, 0, Pow2(n));
    TurnOfProbe(k, 0, n);
  }

  lemma NextTurn(k: Key, h: nat, n: nat)
    requires h < Pow2(n) && Turn(k, h, n) + 1 < Pow2(n)
    ensures Turn(k, Advance(k, h, Pow2(n)), n) == Turn(k, h, n) + 1
  {
    AdvanceIsNextProbe(k, Turn(k, h, n), Pow2(n));
    TurnOfProbe(k, Turn(k, h, n) + 1, n);
  }

  lemma SameTurn(k: Key, g: nat, h: nat, n: nat)
    requires g < Pow2(n) && h < Pow2(n) && Turn(k, g, n) == Turn(k, h, n)
    ensures g == h
  {
  }

  /** The probe sequence of one round is a permutation of the slots. */
  lemma EachSlotOnce(k: Key, n: nat, h: nat)
    requires h < Pow2(n)
    ensures Turn(k, h, n) < Pow2(n) && Probe(k, Turn(k, h, n), Pow2(n)) == h
    ensures forall j: nat :: j < Pow2(n) && Probe(k, j, Pow2(n)) == h ==> j == Turn(k, h, n)
  {
    var i := Turn(k, h, n);
    forall j: nat | j < Pow2(n) && Probe(k, j, Pow2(n)) == h ensures j == i { ProbesDiffer(k, n, i, j); }
  }
}
