/**
 CacheReservationManagerImpl: memory used elsewhere is charged to a block cache by inserting dummy entries of
 a fixed size.  Whether the cache accepts a dummy entry is up to the cache: `room` says how many it will
 accept during a call.
 */
module Reservation {
  import opened Sums

  const DUMMY: nat := 256 * 1024

  /** The least multiple of the dummy size that covers n. */
  function Cover(n: nat): nat {
    (n + DUMMY - 1) / DUMMY * DUMMY
  }

  lemma CoverIsLeast(n: nat, k: nat)
    ensures n <= Cover(n) < n + DUMMY
    ensures n <= DUMMY * k ==> Cover(n) <= DUMMY * k
  {
  }

  /** A multiple that covers n by less than one dummy is the least one. */
  lemma CoverUnique(n: nat, k: nat)
    requires n <= DUMMY * k < n + DUMMY
    ensures DUMMY * k == Cover(n)
  {
  }

  class CacheReservationManager {
    const delayed: bool               // delayed_decrease_
    var reserved: nat                // cache_allocated_size_
    var used: nat                     // memory_used_
    var dummies: seq<nat>             // keys of the dummy entries held
    var nextKey: nat
    var live: seq<int>                // what each live reservation handle stands for

    predicate Valid()
      reads this
    {
      && reserved == DUMMY * |dummies|
      && (forall i :: 0 <= i < |dummies| ==> dummies[i] < nextKey)
      && (forall i, j :: 0 <= i < j < |dummies| ==> dummies[i] != dummies[j])
    }

    /** The reservation covers the memory used and is the least one that does, or, with delay, at most 4/3 of it. */
    predicate Settled()
      reads this
    {
      reserved >= used && (reserved == Cover(used) || (delayed && 3 * reserved <= 4 * used))
    }

    /** The dummies are different cache entries, so the reservation is what the cache is charged for. */
    lemma ReservedIsCharged()
      requires Valid()
      ensures reserved == DUMMY * |Elements(dummies)|
    {
      DistinctSize(dummies);
    }

    constructor (delayedDecrease: bool)
      ensures Valid() && delayed == delayedDecrease && reserved == 0 && used == 0 && live == []
    {
      delayed := delayedDecrease;
      reserved, used, dummies, nextKey, live := 0, 0, [], 0, [];
    }

    /** Inserts dummy entries until n is covered or the cache refuses one. */
    method IncreaseCacheReservation(n: nat, room: nat) returns (ok: bool)
      requires Valid() && n > reserved
      modifies this`reserved, this`dummies, this`nextKey
      ensures Valid() && old(dummies) <= dummies
      ensures ok ==> reserved == Cover(n)
      ensures !ok ==> reserved == old(reserved) + DUMMY * room < n
      ensures ok <==> Cover(n) <= old(reserved) + DUMMY * room
    {
      var count := 0;
      CoverIsLeast(n, |dummies| + room);
      while n > reserved
        invariant Valid() && count <= room && |dummies| == |old(dummies)| + count && old(dummies) <= dummies
        invariant reserved == old(reserved) + DUMMY * count < n + DUMMY
        decreases n + DUMMY - reserved
      {
        if count == room { return false; }
        dummies := dummies + [nextKey];
        nextKey := nextKey + 1;
        reserved := reserved + DUMMY;
        count := count + 1;
      }
      CoverUnique(n, |dummies|);
      return true;
    }

    /** Releases dummy entries down to the least multiple that covers n. */
    method DecreaseCacheReservation(n: nat)
      requires Valid() && n < reserved
      modifies this`reserved, this`dummies
      ensures Valid() && dummies <= old(dummies) && reserved == Cover(n)
    {
      while n + DUMMY <= reserved
        invariant Valid() && n <= reserved && dummies <= old(dummies)
        decreases reserved
      {
        dummies := dummies[..|dummies| - 1];
        reserved := reserved - DUMMY;
      }
      CoverUnique(n, |dummies|);
    }

    /** What is reserved once n bytes are used, when `was` bytes were reserved before and the cache had room for so many
        dummies: more is reserved exactly as far as the cache allows, and less only below 3/4 if there is delay. */
    predicate Answers(was: nat, n: nat, room: nat, ok: bool)
      reads this
    {
      if n > was then
        && (ok <==> Cover(n) <= was + DUMMY * room)
        && reserved == if ok then Cover(n) else was + DUMMY * room
      else
        ok && reserved == if delayed && was / 4 * 3 <= n then was else Cover(n)
    }

    /** An OK update settles the reservation.  With delay the dummies are left alone while the memory used is between
        3/4 of the reservation and all of it; below that, as without delay, it goes down to the least reservation. */
    method UpdateCacheReservation(n: nat, room: nat) returns (ok: bool)
      requires Valid()
      modifies this`reserved, this`dummies, this`nextKey, this`used
      ensures Valid() && used == n
      ensures ok ==> Settled()
      ensures Answers(old(reserved), n, room, ok) && (dummies <= old(dummies) || old(dummies) <= dummies)
      ensures delayed && old(reserved) / 4 * 3 <= n <= old(reserved) ==> dummies == old(dummies)
      ensures !ok ==> old(reserved) <= reserved < n
    {
      used := n;
      if n == reserved {
        CoverUnique(n, |dummies|);
        return true;
      } else if n > reserved {
        ok := IncreaseCacheReservation(n, room);
        CoverIsLeast(n, 0);
      } else {
        QuarterIsExact(|dummies|);
        CoverIsLeast(n, 0);
        if delayed && n >= reserved / 4 * 3 { return true; }
        DecreaseCacheReservation(n);
        return true;
      }
    }

    ghost predicate HandlesAddUp()
      reads this
    {
      used == Sum(live) && forall i :: 0 <= i < |live| ==> live[i] >= 0
    }

    /** The handle is made, and the memory counted, even if the cache refuses. */
    method MakeCacheReservation(inc: nat, room: nat) returns (ok: bool)
      requires Valid() && HandlesAddUp()
      modifies this
      ensures Valid() && HandlesAddUp() && live == old(live) + [inc] && used == old(used) + inc
      ensures if ok then Settled() else old(reserved) <= reserved < used
      ensures Answers(old(reserved), used, room, ok)
    {
      ok := UpdateCacheReservation(used + inc, room);
      SumAppend(live, inc);
      live := live + [inc];
    }

    /** The destructor of the i-th live handle.  The cache may refuse even here, if it had refused before: then the
        reservation still falls short. */
    method DestroyHandle(i: nat, room: nat) returns (ok: bool)
      requires Valid() && HandlesAddUp() && i < |live|
      modifies this
      ensures Valid() && HandlesAddUp() && live == old(live[..i] + live[i + 1..]) && used == old(used) - old(live)[i]
      ensures if ok then Settled() else old(reserved) <= reserved < used
      ensures old(used) <= old(reserved) ==> ok
      ensures Answers(old(reserved), used, room, ok)
    {
      SumMember(live, i);
      SumWithout(live, i);
      ok := UpdateCacheReservation(used - live[i], room);
      live := live[..i] + live[i + 1..];
    }
  }

  /** A quarter of a reservation is a whole number. */
  lemma QuarterIsExact(k: nat)
    ensures (DUMMY * k) / 4 * 3 * 4 == 3 * (DUMMY * k)
  {
  }

  function Elements(xs: seq<nat>): set<nat> {
    set x | x in xs
  }

  lemma {:induction false} DistinctSize(xs: seq<nat>)
    requires forall i, j :: 0 <= i < j < |xs| ==> xs[i] != xs[j]
    ensures |Elements(xs)| == |xs|
  {
    if xs == [] {
      assert Elements(xs) == {};
    } else {
      var n := |xs| - 1;
      DistinctSize(xs[..n]);
      var s := Elements(xs[..n]);
      assert xs[n] !in s;
      assert Elements(xs) == s + {xs[n]};
    }
  }

  lemma {:induction false} SumWithout(xs: seq<int>, i: nat)
    requires i < |xs|
    ensures Sum(xs[..i] + xs[i + 1..]) == Sum(xs) - xs[i]
  {
    var m := |xs| - 1;
    if i == m {
      assert xs[..i] + xs[i + 1..] == xs[..m];
    } else {
      var r := xs[..i] + xs[i + 1..];
      assert r[..|r| - 1] == xs[..m][..i] + xs[..m][i + 1..];
      SumWithout(xs[..m], i);
    }
  }
}
