/** Sums of integer sequences, and how they change when one element does. */
module Sums {
  function Sum(xs: seq<int>): int {
    if |xs| == 0 then 0 else Sum(xs[..|xs| - 1]) + xs[|xs| - 1]
  }

  lemma {:induction false} SumUpdate(xs: seq<int>, i: nat, x: int)
    requires i < |xs|
    ensures Sum(xs[i := x]) == Sum(xs) - xs[i] + x
  {
    var m := |xs| - 1;
    if i == m {
      assert xs[i := x][..m] == xs[..m];
    } else {
      assert xs[i := x][..m] == xs[..m][i := x];
      SumUpdate(xs[..m], i, x);
    }
  }

  lemma SumAppend(xs: seq<int>, x: int)
    ensures Sum(xs + [x]) == Sum(xs) + x
  {
    assert (xs + [x])[..|xs|] == xs;
  }

  lemma {:induction false} SumNonNegative(xs: seq<int>)
    requires forall i :: 0 <= i < |xs| ==> xs[i] >= 0
    ensures Sum(xs) >= 0
  {
    if |xs| > 0 { SumNonNegative(xs[..|xs| - 1]); }
  }

  lemma SumMember(xs: seq<int>, i: nat)
    requires i < |xs| && forall j :: 0 <= j < |xs| ==> xs[j] >= 0
    ensures 0 <= xs[i] <= Sum(xs)
  {
    SumUpdate(xs, i, 0);
    SumNonNegative(xs[i := 0]);
  }

  lemma SumTwo(xs: seq<int>, i: nat, j: nat)
    requires i < |xs| && j < |xs| && i != j && forall k :: 0 <= k < |xs| ==> xs[k] >= 0
    ensures xs[i] + xs[j] <= Sum(xs)
  {
    SumUpdate(xs, i, 0);
    SumMember(xs[i := 0], j);
  }

  /** A positive sum has a positive element. */
  lemma {:induction false} SumPositive(xs: seq<int>) returns (i: nat)
    requires Sum(xs) > 0
    ensures i < |xs| && xs[i] > 0
  {
    i := |xs| - 1;
    if xs[i] <= 0 { i := SumPositive(xs[..i]); }
  }

  lemma {:induction false} SumZero(xs: seq<int>)
    requires forall i :: 0 <= i < |xs| ==> xs[i] == 0
    ensures Sum(xs) == 0
  {
    if |xs| > 0 { SumZero(xs[..|xs| - 1]); }
  }
}
