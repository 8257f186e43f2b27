/**
 The operations of HyperClockTable, run one at a time, on its array of slots.
 */
module HyperClockTable {
  import opened Basics
  import opened ClockProbe
  import opened ClockMachine
  import opened ClockTable
  import opened Sums

  /** The displacement count that Rollback(k, h) leaves in slot j. */
  ghost function Lowered(x: Slot, k: Key, h: nat, j: nat, n: nat): Slot
    requires h < Pow2(n) && j < Pow2(n)
  {
    if Passes(k, h, j, n) then x.(disp := x.disp - 1) else x
  }

  /** The displacement count after a search for k has gone over the first i slots of its path. */
  ghost function Raised(x: Slot, k: Key, i: nat, j: nat, n: nat): Slot
    requires j < Pow2(n)
  {
    if Turn(k, j, n) < i then x.(disp := x.disp + 1) else x
  }

  /** Equal, except that lookups may have left junk in the acquire counter of an empty slot. */
  predicate SameButJunk(x: Slot, y: Slot) {
    y == x || (x.meta.st.Empty? && y == x.(meta := Meta(Empty, y.meta.acq, x.meta.rel)))
  }

  /** Nothing before slot j on k's path ends a search for k. */
  ghost predicate Reaches(ss: seq<Slot>, k: Key, j: nat, n: nat)
    requires |ss| == Pow2(n) && j < |ss|
  {
    forall h: nat :: h < |ss| && Turn(k, h, n) < Turn(k, j, n) ==> ss[h].disp != 0 && !Matches(ss[h], k)
  }

  /** Lookup(k) has gone over the first i slots of k's path. */
  ghost predicate LookedUpTo(ss: seq<Slot>, rr: seq<Slot>, k: Key, i: nat, n: nat) {
    && |ss| == Pow2(n) && |rr| == |ss|
    && (forall j: nat {:trigger rr[j]} :: j < |ss| ==>
          rr[j] == if Turn(k, j, n) < i && ss[j].meta.st.Empty? then Referenced(ss[j]) else ss[j])
    && forall j: nat {:trigger ss[j]} :: j < |ss| && Turn(k, j, n) < i ==> ss[j].disp != 0 && !Matches(ss[j], k)
  }

  /** Lookup(k) references the entry it finds and the empty slots on its way, and leaves all others alone. */
  ghost predicate Looked(ss: seq<Slot>, rr: seq<Slot>, k: Key, n: nat) {
    && |ss| == Pow2(n) && |rr| == |ss|
    && forall j: nat {:trigger rr[j]} :: j < |ss| ==>
         rr[j] == if Reaches(ss, k, j, n) && (Matches(ss[j], k) || ss[j].meta.st.Empty?) then Referenced(ss[j])
                  else ss[j]
  }

  lemma LookedOneMore(ss: seq<Slot>, mid: seq<Slot>, k: Key, h: nat, n: nat)
    requires h < Pow2(n) && LookedUpTo(ss, mid, k, Turn(k, h, n), n)
    ensures var x := mid[h];
      var rr := mid[h := if Matches(x, k) || x.meta.st.Empty? then Referenced(x) else x];
      && x == ss[h]
      && (if x.disp == 0 || Matches(x, k) then Looked(ss, rr, k, n) else LookedUpTo(ss, rr, k, Turn(k, h, n) + 1, n))
  {
    var x := mid[h];
    var rr := mid[h := if Matches(x, k) || x.meta.st.Empty? then Referenced(x) else x];
    forall j: nat | j < |ss| && j != h ensures Turn(k, j, n) != Turn(k, h, n) {
      if Turn(k, j, n) == Turn(k, h, n) { SameTurn(k, j, h, n); }
    }
    if x.disp == 0 || Matches(x, k) {
      forall j: nat | j < |ss| ensures Reaches(ss, k, j, n) <==> Turn(k, j, n) <= Turn(k, h, n) {}
    }
  }

  lemma LookedAtAll(ss: seq<Slot>, rr: seq<Slot>, k: Key, n: nat)
    requires LookedUpTo(ss, rr, k, Pow2(n), n)
    ensures Looked(ss, rr, k, n)
  {
    forall j: nat | j < |ss| ensures Reaches(ss, k, j, n) && Turn(k, j, n) < Pow2(n) {}
  }

  lemma LookedAtNone(ss: seq<Slot>, k: Key, n: nat)
    requires |ss| == Pow2(n)
    ensures LookedUpTo(ss, ss, k, 0, n)
  {
  }

  /** The same content (displacement counts and junk aside). */
  predicate SameContent(x: Slot, y: Slot) {
    if Shareable(x.meta) then y == x.(disp := y.disp) else y.meta.st.Empty?
  }

  /** What Erase(k) makes of an entry: a visible entry for k is freed, or hidden while it is referenced. */
  function Erased(x: Slot, k: Key): Slot {
    if !Matches(x, k) then x
    else if Refcount(x.meta) == 0 then x.(meta := EMPTY)
    else x.(meta := x.meta.(st := Invisible))
  }

  /** Erase(k) has dealt with the first i slots of k's probe path. */
  ghost predicate ErasedUpTo(ss: seq<Slot>, rr: seq<Slot>, k: Key, i: nat, n: nat) {
    && |ss| == Pow2(n) && |rr| == |ss|
    && forall j: nat :: j < |ss| ==> SameContent(if Turn(k, j, n) < i then Erased(ss[j], k) else ss[j], rr[j])
  }

  lemma ErasedNone(ss: seq<Slot>, k: Key, n: nat)
    requires Good(ss, n)
    ensures ErasedUpTo(ss, ss, k, 0, n)
  {
    forall j: nat | j < |ss| ensures SlotOk(ss[j]) {}
  }

  lemma ErasedOneMore(ss: seq<Slot>, mid: seq<Slot>, rr: seq<Slot>, k: Key, h: nat, n: nat)
    requires h < Pow2(n) && ErasedUpTo(ss, mid, k, Turn(k, h, n), n) && |rr| == |mid|
    requires SameContent(Erased(mid[h], k), rr[h])
    requires forall j: nat :: j < |mid| && j != h ==> rr[j] == mid[j].(disp := rr[j].disp)
    ensures ErasedUpTo(ss, rr, k, Turn(k, h, n) + 1, n)
  {
    forall j: nat | j < |ss|
      ensures SameContent(if Turn(k, j, n) < Turn(k, h, n) + 1 then Erased(ss[j], k) else ss[j], rr[j])
    {
      if j != h && Turn(k, j, n) == Turn(k, h, n) { SameTurn(k, j, h, n); }
    }
  }

  /** A zero displacement count means that Erase(k) is done. */
  lemma ErasedAll(ss: seq<Slot>, rr: seq<Slot>, k: Key, h: nat, n: nat)
    requires h < Pow2(n) && ErasedUpTo(ss, rr, k, Turn(k, h, n) + 1, n) && Good(rr, n) && rr[h].disp == 0
    ensures ErasedUpTo(ss, rr, k, Pow2(n), n)
  {
    NothingBeyond(rr, n, k, h);
  }

  /** Erase(k) has gone over the first i slots of k's path, referencing the empty ones, and has not touched others. */
  ghost predicate WentOver(ss: seq<Slot>, rr: seq<Slot>, k: Key, i: nat, n: nat) {
    && |ss| == Pow2(n) && |rr| == |ss|
    && (forall j: nat {:trigger rr[j]} :: j < |ss| ==>
          if Turn(k, j, n) >= i then rr[j] == ss[j]
          else ss[j].meta.st.Empty? ==> rr[j] == Referenced(ss[j]).(disp := rr[j].disp))
    && forall j: nat {:trigger ss[j]} :: j < |ss| && Turn(k, j, n) + 1 < i ==> ss[j].disp != 0
  }

  /** It ends after the first slot without displacements, or after all. */
  ghost predicate EndsAt(ss: seq<Slot>, rr: seq<Slot>, k: Key, i: nat, n: nat) {
    WentOver(ss, rr, k, i, n) && i <= |ss| && (i < |ss| ==> i > 0 && ss[Probe(k, i - 1, |ss|)].disp == 0)
  }

  lemma WentOneMore(ss: seq<Slot>, mid: seq<Slot>, rr: seq<Slot>, k: Key, h: nat, n: nat)
    requires h < Pow2(n) && WentOver(ss, mid, k, Turn(k, h, n), n) && |rr| == |mid| && rr[h].disp == mid[h].disp
    requires forall j: nat :: j < |ss| && Turn(k, j, n) + 1 == Turn(k, h, n) ==> ss[j].disp != 0
    requires mid[h].meta.st.Empty? ==> rr[h] == Referenced(mid[h])
    requires forall j: nat {:trigger rr[j]} :: j < |mid| && j != h ==>
      rr[j] == mid[j].(disp := rr[j].disp) && (Turn(k, j, n) > Turn(k, h, n) ==> rr[j] == mid[j])
    ensures WentOver(ss, rr, k, Turn(k, h, n) + 1, n) && rr[h].disp == ss[h].disp
  {
    forall j: nat | j < |ss| && j != h ensures Turn(k, j, n) != Turn(k, h, n) {
      if Turn(k, j, n) == Turn(k, h, n) { SameTurn(k, j, h, n); }
    }
  }

  /** Only the slot just gone over may have had no displacements. */
  lemma WentOn(ss: seq<Slot>, k: Key, h: nat, n: nat)
    requires |ss| == Pow2(n) && h < |ss| && ss[h].disp != 0
    ensures forall j: nat :: j < |ss| && Turn(k, j, n) + 1 == Turn(k, h, n) + 1 ==> ss[j].disp != 0
  {
    forall j: nat | j < |ss| && Turn(k, j, n) == Turn(k, h, n) ensures j == h { SameTurn(k, j, h, n); }
  }

  lemma WentNowhere(ss: seq<Slot>, k: Key, n: nat)
    requires |ss| == Pow2(n)
    ensures WentOver(ss, ss, k, 0, n)
  {
  }

  /** Taking the content of slot h away, an entry for k, leaves alone what comes after it on k's path. */
  lemma NothingAfter(ss: seq<Slot>, rr: seq<Slot>, k: Key, h: nat, n: nat)
    requires Differ(ss, rr, h, n) && ss[h].key == rr[h].key == k
    ensures forall j: nat {:trigger rr[j]} :: j < |ss| && Turn(k, j, n) >= Turn(k, h, n) ==> rr[j].disp == ss[j].disp
  {
    forall j: nat | j < |ss| && Turn(k, j, n) >= Turn(k, h, n) ensures rr[j].disp == ss[j].disp {
      assert !Passes(k, h, j, n);
      assert rr[j].disp - ss[j].disp == Over(rr[h], h, j, n) - Over(ss[h], h, j, n);
    }
  }

  /** Afterwards no visible entry for k is left, and every other entry is as it was. */
  lemma NoneLeft(ss: seq<Slot>, rr: seq<Slot>, k: Key, n: nat)
    requires ErasedUpTo(ss, rr, k, Pow2(n), n)
    ensures forall j: nat :: j < |ss| ==> SameContent(Erased(ss[j], k), rr[j]) && !Matches(rr[j], k)
  {
  }

  function Referenced(x: Slot): Slot {
    x.(meta := Acquired(x.meta, 1))
  }

  /** What Insert reports: Failed is MemoryLimit, Dropped is OK with the entry freed at once. */
  datatype InsertResult = Failed | Dropped | InTable(h: nat) | Standalone(h: nat)

  /** A standalone handle is referenced, or it is gone. */
  predicate AloneOk(x: Slot) {
    x.meta.st.Deleted? || (x.meta.st.Invisible? && Refcount(x.meta) > 0)
  }

  lemma WeightAppend(ss: seq<Slot>, x: Slot)
    ensures Weight(ss + [x]) == Weight(ss) + if Shareable(x.meta) then x.charge else 0
  {
    assert Weights(ss + [x]) == Weights(ss) + [if Shareable(x.meta) then x.charge else 0];
    SumAppend(Weights(ss), if Shareable(x.meta) then x.charge else 0);
  }

  lemma WeightUpdate(ss: seq<Slot>, h: nat, x: Slot)
    requires h < |ss|
    ensures Weight(ss[h := x]) == Weight(ss) - (if Shareable(ss[h].meta) then ss[h].charge else 0)
                                  + (if Shareable(x.meta) then x.charge else 0)
  {
    var w := if Shareable(x.meta) then x.charge else 0;
    assert Weights(ss[h := x]) == Weights(ss)[h := w];
    SumUpdate(Weights(ss), h, w);
  }

  const GONE: Meta := Meta(Deleted, 0, 0)

  function NewAlone(k: Key, c: nat): Slot {
    Slot(Meta(Invisible, 1, 0), k, c, 0)
  }

  /** The slot is the first one on k's path that is empty or has a visible entry for k. */
  ghost predicate FirstFit(ss: seq<Slot>, k: Key, h: nat, n: nat) {
    && |ss| == Pow2(n) && h < |ss|
    && forall j: nat :: j < |ss| && Turn(k, j, n) < Turn(k, h, n) ==> !ss[j].meta.st.Empty? && !Matches(ss[j], k)
  }

  /** A new entry for k goes into the empty slot h. */
  ghost predicate PutAt(ss: seq<Slot>, rr: seq<Slot>, h: nat, x: Slot) {
    && h < |ss| && |rr| == |ss| && ss[h].meta.st.Empty? && rr[h] == x.(disp := rr[h].disp)
    && forall j: nat :: j < |ss| && j != h ==> rr[j] == ss[j].(disp := rr[j].disp)
  }

  /** The clock of a visible entry for k is boosted, nothing else. */
  ghost predicate BoostedAt(ss: seq<Slot>, rr: seq<Slot>, h: nat, k: Key, countdown: nat) {
    h < |ss| && Matches(ss[h], k) && rr == ss[h := Boosted(ss[h], countdown)]
  }

  /** An insertion for k has counted its displacements on the first i slots of its path, which refused it. */
  ghost predicate PushedUpTo(ss: seq<Slot>, rr: seq<Slot>, k: Key, i: nat, n: nat) {
    && |ss| == Pow2(n) && |rr| == |ss|
    && (forall j: nat {:trigger rr[j]} :: j < |ss| ==> rr[j] == Raised(ss[j], k, i, j, n))
    && (forall j: nat {:trigger ss[j]} :: j < |ss| && Turn(k, j, n) < i ==> !ss[j].meta.st.Empty? && !Matches(ss[j], k))
  }

  lemma PushedOneMore(ss: seq<Slot>, rr: seq<Slot>, k: Key, h: nat, n: nat)
    requires h < Pow2(n) && PushedUpTo(ss, rr, k, Turn(k, h, n), n)
    requires !rr[h].meta.st.Empty? && !Matches(rr[h], k)
    ensures PushedUpTo(ss, rr[h := rr[h].(disp := rr[h].disp + 1)], k, Turn(k, h, n) + 1, n)
  {
    forall j: nat | j < |ss| && Turn(k, j, n) == Turn(k, h, n) ensures j == h { SameTurn(k, j, h, n); }
  }

  /** The entry goes into the slot that the path has reached: the displacement counts fit. */
  lemma PutFits(ss: seq<Slot>, rr: seq<Slot>, k: Key, h: nat, x: Slot, n: nat)
    requires Good(ss, n) && h < Pow2(n) && PushedUpTo(ss, rr, k, Turn(k, h, n), n) && rr[h].meta.st.Empty?
    requires x.key == k && Shareable(x.meta) && SlotOk(x) && x.disp == rr[h].disp
    ensures Good(rr[h := x], n) && PutAt(ss, rr[h := x], h, x)
    ensures Filled(rr[h := x]) == Filled(ss) + 1 && Weight(rr[h := x]) == Weight(ss) + x.charge
  {
    assert Differ(ss, rr[h := x], h, n);
    DifferKeepsGood(ss, rr[h := x], h, n);
    DifferTotals(ss, rr[h := x], h, n);
  }

  /** Rolling an insertion back from h undoes its displacements. */
  lemma RolledBack(ss: seq<Slot>, mid: seq<Slot>, rr: seq<Slot>, k: Key, h: nat, n: nat, x: Slot)
    requires h < Pow2(n) && PushedUpTo(ss, mid, k, Turn(k, h, n), n) && x.disp == ss[h].disp && |rr| == |mid|
    requires forall j: nat {:trigger rr[j]} :: j < |ss| ==> rr[j] == Lowered(mid[h := x][j], k, h, j, n)
    ensures rr == ss[h := x]
  {
  }

  /** What is left of a slot once unreferenced entries are erased. */
  function Kept(x: Slot): Slot {
    if Shareable(x.meta) && Refcount(x.meta) == 0 then x.(meta := EMPTY) else x
  }

  function GivenBack(m: Meta, useful: bool): Meta {
    if useful then m.(rel := m.rel + 1) else m.(acq := m.acq - 1)
  }

  function Boosted(x: Slot, countdown: nat): Slot {
    x.(meta := Meta(x.meta.st, x.meta.acq + countdown, x.meta.rel + countdown))
  }

  /** A reference given back is one less.  A useful one leaves the clock what it has counted up; one that was not is as
      if it had not been taken. */
  lemma GivenBackMeans(x: Slot, useful: bool)
    ensures var m := GivenBack(x.meta, useful);
      Refcount(m) == Refcount(x.meta) - 1 && m.st == x.meta.st && (useful ==> m.acq == x.meta.acq)
    ensures GivenBack(Referenced(x).meta, false) == x.meta
    ensures Refcount(Referenced(x).meta) == Refcount(x.meta) + 1 && Referenced(x) == x.(meta := Referenced(x).meta)
  {
  }

  lemma MinIs(a: int)
    ensures Min(a, 3) <= 3 && Min(a, 3) <= a && (a <= 3 ==> Min(a, 3) == a) && (a >= 3 ==> Min(a, 3) == 3)
  {
  }

  /** A boost leaves the references alone, and lets an unreferenced entry last for at least so many more visits of the
      hand, up to three. */
  lemma BoostedLasts(x: Slot, countdown: nat, v: nat)
    requires SlotOk(x) && x.meta.st.Visible? && 0 < v <= Min(countdown, 3)
    ensures Refcount(Boosted(x, countdown).meta) == Refcount(x.meta)
    ensures Aged(Boosted(x, countdown).meta, v).st.Visible?
    ensures x.meta.acq == 0 && v == Min(countdown, 3) ==> Aged(Boosted(x, countdown).meta, v).acq == 0
  {
    hide Aged, Min;
    var m := Boosted(x, countdown).meta;
    MinIs(countdown);
    MinIs(m.acq);
    if Refcount(m) == 0 { Lifetime(m, v); } else { Spared(m, v); }
  }

  /** Room for c under the strict limit, and a free slot if one is needed. */
  predicate EnoughFreed(ss: seq<Slot>, rr: seq<Slot>, was: int, c: nat, capacity: nat, needSlot: bool) {
    && SlotFreed(ss, rr, needSlot)
    && (was + c > capacity ==> was + c - (Weight(ss) - Weight(rr)) <= capacity)
  }

  predicate SlotFreed(ss: seq<Slot>, rr: seq<Slot>, needSlot: bool) {
    needSlot ==> Filled(rr) < Filled(ss)
  }

  /** What has to be evicted for c more bytes to fit, and at least one byte if a slot has to be freed. */
  function StrictNeed(was: int, c: nat, capacity: nat, needSlot: bool): nat {
    if was + c > capacity then was + c - capacity else if needSlot then 1 else 0
  }

  /** How far the hand moves for an insertion: not at all for one that is too large for the strict limit, and
      otherwise as far as it takes for what has to be evicted. */
  ghost predicate EvictedToInsert(ss: seq<Slot>, p: nat, steps: nat, was: int, c: nat, capacity: nat, strict: bool,
                                  needSlot: bool)
    requires |ss| > 0
  {
    if !strict then EvictedFor(ss, p, steps, LooseNeed(was, c, capacity, needSlot))
    else if c > capacity then steps == 0
    else EvictedFor(ss, p, steps, StrictNeed(was, c, capacity, needSlot))
  }

  class Table {
    const bits: nat
    const slots: array<Slot>
    const occLimit: nat
    const base: nat          // metadata charge
    var usage: int
    var alone: int           // standalone_usage_
    var aside: seq<Slot>     // standalone handles, numbered from slots.Length on
    var occupancy: int
    var clock: nat

    ghost predicate Shape() {
      slots.Length == Pow2(bits) && occLimit < slots.Length
    }

    ghost predicate Valid()
      reads this, slots
    {
      && Shape() && Good(slots[..], bits)
      && occupancy == Filled(slots[..]) <= occLimit
      && usage == base + alone + Weight(slots[..])
      && alone == Weight(aside) && forall j: nat :: j < |aside| ==> AloneOk(aside[j])
    }

    predicate AloneSame(total: int, handles: seq<Slot>)
      reads this
    {
      alone == total && aside == handles
    }

    /** The handle numbered h: in the table or standalone. */
    predicate Exists(h: nat)
      reads this
    {
      h < slots.Length + |aside|
    }

    function Handle(h: nat): Slot
      requires Exists(h)
      reads this, slots
    {
      if h < slots.Length then slots[h] else aside[h - slots.Length]
    }

    constructor (n: nat, limit: nat, metadata: nat)
      requires limit < Pow2(n)
      ensures Valid() && bits == n && occLimit == limit && base == metadata && fresh(slots)
      ensures Filled(slots[..]) == 0 && alone == 0 && aside == []
    {
      bits, occLimit, base := n, limit, metadata;
      slots := new Slot[Pow2(n)](_ => Slot(EMPTY, Key(0, 0), 0, 0));
      usage, alone, aside, occupancy, clock := metadata, 0, [], 0, 0;
      new;
      SumZero(Fills(slots[..]));
      SumZero(Weights(slots[..]));
      forall j: nat | j < slots.Length ensures DispOk(slots[..], j, bits) {
        SumZero(Overs(slots[..], j, bits));
      }
    }

    /** Takes the displacements on the way from k's first probe to h back.  It ends because h is on that way. */
    method Rollback(k: Key, h: nat)
      requires Shape() && h < slots.Length
      modifies slots
      ensures forall j: nat :: j < slots.Length ==> slots[j] == Lowered(old(slots[j]), k, h, j, bits)
    {
      var current: nat := First(k, slots.Length);
      ghost var i := 0;
      FirstTurn(k, bits);
      while current != h
        invariant current < slots.Length && i == Turn(k, current, bits) <= Turn(k, h, bits)
        invariant forall j: nat :: j < slots.Length ==>
          slots[j] == (if Turn(k, j, bits) < i then old(slots[j]).(disp := old(slots[j]).disp - 1) else old(slots[j]))
        decreases Turn(k, h, bits) - i
      {
        if i < Turn(k, h, bits) { NextTurn(k, current, bits); } else { SameTurn(k, current, h, bits); }
        slots[current] := slots[current].(disp := slots[current].disp - 1);
        current := Advance(k, current, slots.Length);
        i := i + 1;
      }
    }

    /** Rollback, FreeData and MarkEmpty on a slot taken over with meta word m. */
    method Clear(h: nat, ghost m: Meta)
      requires Shape() && h < slots.Length && slots[h].meta == OWNED && Shareable(m)
      requires Good(slots[..][h := slots[h].(meta := m)], bits)
      modifies slots
      ensures Good(slots[..], bits) && Differ(old(slots[..][h := slots[h].(meta := m)]), slots[..], h, bits)
      ensures slots[h] == old(slots[h]).(meta := EMPTY, disp := slots[h].disp)
      ensures Filled(slots[..]) == old(Filled(slots[..][h := slots[h].(meta := m)])) - 1
      ensures Weight(slots[..]) == old(Weight(slots[..][h := slots[h].(meta := m)])) - old(slots[h].charge)
    {
      ghost var ss := slots[..][h := slots[h].(meta := m)];
      Rollback(slots[h].key, h);
      slots[h] := slots[h].(meta := EMPTY);
      assert Differ(ss, slots[..], h, bits);
      DifferKeepsGood(ss, slots[..], h, bits);
      DifferTotals(ss, slots[..], h, bits);
    }

    /** Takes the entry in slot h over and frees it: Release, EraseUnRefEntries and Erase do this. */
    method Free(h: nat)
      requires Valid() && h < slots.Length && Shareable(slots[h].meta)
      modifies this, slots
      ensures Valid() && Differ(old(slots[..]), slots[..], h, bits)
      ensures slots[h] == old(slots[h]).(meta := EMPTY, disp := slots[h].disp)
      ensures AloneSame(old(alone), old(aside)) && clock == old(clock)
    {
      ghost var m := slots[h].meta;
      ghost var ss := slots[..];
      var charge := slots[h].charge;
      slots[h] := slots[h].(meta := OWNED);
      assert slots[..][h := slots[h].(meta := m)] == ss;
      Clear(h, m);
      occupancy := occupancy - 1;
      usage := usage - charge;
    }

    /** Finds the entry that a scan of the whole table in probe order would find, and references it. */
    method Lookup(k: Key) returns (r: Option<nat>)
      requires Valid()
      modifies slots
      ensures Valid() && r == FullScan(old(slots[..]), k, 0)
      ensures r.Some? ==> r.value < slots.Length && slots[r.value] == Referenced(old(slots[r.value]))
      ensures forall j: nat :: j < slots.Length && r != Some(j) ==> SameButJunk(old(slots[j]), slots[j])
      ensures Looked(old(slots[..]), slots[..], k, bits)
    {
      hide FullScan, Filled, Weight, Good, LookedUpTo, Looked;
      ScanEnd(slots[..], k);
      LookedAtNone(slots[..], k, bits);
      var current: nat, probe: nat := First(k, slots.Length), 0;
      FirstTurn(k, bits);
      while probe < slots.Length
        invariant Valid() && probe <= slots.Length && current < slots.Length
        invariant probe < slots.Length ==> probe == Turn(k, current, bits)
        invariant FullScan(old(slots[..]), k, 0) == FullScan(old(slots[..]), k, probe)
        invariant forall j: nat :: j < slots.Length ==> SameButJunk(old(slots[j]), slots[j])
        invariant LookedUpTo(old(slots[..]), slots[..], k, probe, bits)
      {
        ScanAt(old(slots[..]), bits, k, current);
        LookedOneMore(old(slots[..]), slots[..], k, current, bits);
        var hit := LookupAt(k, current);
        if hit { return Some(current); }
        if slots[current].disp == 0 {
          ScanBeyond(old(slots[..]), bits, k, current);
          return None;
        }
        if probe + 1 < slots.Length { NextTurn(k, current, bits); }
        probe := probe + 1;
        current := Advance(k, current, slots.Length);
      }
      LookedAtAll(old(slots[..]), slots[..], k, bits);
      return None;
    }

    /** One probe of Lookup. */
    method LookupAt(k: Key, h: nat) returns (hit: bool)
      requires Valid() && h < slots.Length
      modifies slots
      ensures Valid() && hit == Matches(old(slots[h]), k)
      ensures var x := old(slots[h]);
        slots[..] == old(slots[..])[h := if Matches(x, k) || x.meta.st.Empty? then Referenced(x) else x]
    {
      var x := slots[h];
      if Matches(x, k) || x.meta.st.Empty? {
        SameFullness(slots[..], h, Acquired(x.meta, 1), bits);
        slots[h] := Referenced(x);
      }
      return Matches(x, k);
    }

    /** Leaves no visible entry for k anywhere, duplicates included, and touches no other entry. */
    method Erase(k: Key)
      requires Valid()
      modifies this, slots
      ensures Valid() && AloneSame(old(alone), old(aside)) && clock == old(clock)
      ensures forall j: nat :: j < slots.Length ==> SameContent(Erased(old(slots[j]), k), slots[j])
      ensures forall j: nat :: j < slots.Length ==> !Matches(slots[j], k)
      ensures exists i: nat :: EndsAt(old(slots[..]), slots[..], k, i, bits)
    {
      hide ErasedUpTo, Filled, Weight, Good, WentOver;
      ErasedNone(slots[..], k, bits);
      WentNowhere(slots[..], k, bits);
      ghost var ends := slots.Length;
      var current: nat, probe: nat := First(k, slots.Length), 0;
      FirstTurn(k, bits);
      while probe < slots.Length
        invariant Valid() && probe <= slots.Length && current < slots.Length
        invariant probe < slots.Length ==> probe == Turn(k, current, bits)
        invariant AloneSame(old(alone), old(aside)) && clock == old(clock)
        invariant ErasedUpTo(old(slots[..]), slots[..], k, probe, bits)
        invariant WentOver(old(slots[..]), slots[..], k, probe, bits)
        invariant forall j: nat :: j < slots.Length && Turn(k, j, bits) + 1 == probe ==> old(slots[..])[j].disp != 0
      {
        ghost var mid := slots[..];
        EraseAt(k, current);
        ErasedOneMore(old(slots[..]), mid, slots[..], k, current, bits);
        WentOneMore(old(slots[..]), mid, slots[..], k, current, bits);
        if slots[current].disp == 0 {
          ErasedAll(old(slots[..]), slots[..], k, current, bits);
          ends := probe + 1;
          break;
        }
        WentOn(old(slots[..]), k, current, bits);
        if probe + 1 < slots.Length { NextTurn(k, current, bits); }
        probe := probe + 1;
        current := Advance(k, current, slots.Length);
      }
      NoneLeft(old(slots[..]), slots[..], k, bits);
      assert EndsAt(old(slots[..]), slots[..], k, ends, bits);
    }

    /** One probe of Erase. */
    method EraseAt(k: Key, h: nat)
      requires Valid() && h < slots.Length
      modifies this, slots
      ensures Valid() && AloneSame(old(alone), old(aside)) && clock == old(clock)
      ensures SameContent(Erased(old(slots[h]), k), slots[h])
      ensures forall j: nat :: j < slots.Length && j != h ==> slots[j] == old(slots[j]).(disp := slots[j].disp)
      ensures forall j: nat :: j < slots.Length && Turn(k, j, bits) >= Turn(k, h, bits) ==>
        slots[j].disp == old(slots[j].disp)
      ensures old(slots[h]).meta.st.Empty? ==> slots[h] == Referenced(old(slots[h]))
    {
      var x := slots[h];
      if Matches(x, k) {
        SameFullness(slots[..], h, x.meta.(st := Invisible), bits);
        slots[h] := x.(meta := x.meta.(st := Invisible));
        if Refcount(x.meta) == 0 {
          ghost var mid := slots[..];
          Free(h);
          NothingAfter(mid, slots[..], k, h, bits);
        }
      } else if x.meta.st.Empty? {
        SameFullness(slots[..], h, Acquired(x.meta, 1), bits);
        slots[h] := Referenced(x);
      }
    }

    /** Moves the clock of one slot; an entry that ran out of time is taken over. */
    method ClockUpdate(h: nat) returns (evicting: bool)
      requires Shape() && h < slots.Length
      modifies slots
      ensures evicting <==> Shareable(old(slots[h].meta)) && !Shareable(Tick(old(slots[h].meta)))
      ensures slots[h] == old(slots[h]).(meta := if evicting then OWNED else Tick(old(slots[h].meta)))
      ensures forall j: nat :: j < slots.Length && j != h ==> slots[j] == old(slots[j])
    {
      var m := slots[h].meta;
      if m.acq != m.rel { return false; }
      if !Shareable(m) { return false; }
      if m.st.Visible? && m.acq > 0 {
        var n := Min(m.acq - 1, 2);
        slots[h] := slots[h].(meta := Meta(Visible, n, n));
        return false;
      }
      slots[h] := slots[h].(meta := OWNED);
      return true;
    }

    /** One position of the clock hand. */
    method EvictAt(h: nat) returns (freed: nat, count: nat)
      requires Shape() && h < slots.Length && Good(slots[..], bits)
      modifies slots
      ensures Good(slots[..], bits) && count <= 1 && (count == 0 ==> freed == 0)
      ensures Filled(slots[..]) + count == old(Filled(slots[..])) && Weight(slots[..]) + freed == old(Weight(slots[..]))
      ensures slots[h] == old(slots[h]).(meta := Tick(old(slots[h].meta)), disp := slots[h].disp)
      ensures forall j: nat :: j < slots.Length && j != h ==> slots[j] == old(slots[j]).(disp := slots[j].disp)
    {
      ghost var ss := slots[..];
      ghost var m := slots[h].meta;
      assert SlotOk(ss[h]);
      var evicting := ClockUpdate(h);
      if evicting {
        assert slots[..][h := slots[h].(meta := m)] == ss;
        freed, count := slots[h].charge, 1;
        Clear(h, m);
      } else {
        freed, count := 0, 0;
        SameFullness(ss, h, Tick(m), bits);
        assert slots[..] == ss[h := ss[h].(meta := Tick(m))];
      }
    }

    /** The four slots from the hand on. */
    method EvictBatch(hand: nat) returns (freed: nat, count: nat)
      requires Shape() && Good(slots[..], bits)
      modifies slots
      ensures Good(slots[..], bits) && (count == 0 ==> freed == 0)
      ensures Filled(slots[..]) + count == old(Filled(slots[..])) && Weight(slots[..]) + freed == old(Weight(slots[..]))
      ensures AgedAll(old(slots[..]), slots[..], hand, 4)
    {
      hide AgedAll, Filled, Weight, Good;
      AgedNone(slots[..], hand);
      freed, count := 0, 0;
      for i := 0 to 4
        invariant Good(slots[..], bits) && (count == 0 ==> freed == 0)
        invariant Filled(slots[..]) + count == old(Filled(slots[..]))
        invariant Weight(slots[..]) + freed == old(Weight(slots[..]))
        invariant AgedAll(old(slots[..]), slots[..], hand, i)
      {
        ghost var mid := slots[..];
        var c, n := EvictAt((hand + i) % slots.Length);
        AgedOneMore(old(slots[..]), mid, slots[..], hand, i, (hand + i) % slots.Length);
        freed, count := freed + c, count + n;
      }
    }

    /** Evicts until enough is freed or the hand has gone round three times. */
    method Evict(request: nat) returns (freed: nat, count: nat, ghost steps: nat)
      requires Shape() && Good(slots[..], bits) && request > 0
      modifies slots, this`clock
      ensures Good(slots[..], bits) && clock == old(clock) + steps && (count == 0 ==> freed == 0)
      ensures Filled(slots[..]) + count == old(Filled(slots[..])) && Weight(slots[..]) + freed == old(Weight(slots[..]))
      ensures AgedAll(old(slots[..]), slots[..], old(clock), steps)
      ensures steps >= 4 && StopsAt(old(slots[..]), old(clock), steps, request)
      ensures freed < request ==> steps >= 3 * slots.Length + 4 && Worn(slots[..])
    {
      hide AgedAll, Filled, Weight, Worn, Good, Freed, After;
      AgedNone(slots[..], clock);
      freed, count, steps := 0, 0, 0;
      var hand := clock;
      clock := clock + 4;
      var max := hand + 3 * slots.Length;
      while true
        invariant Good(slots[..], bits) && (count == 0 ==> freed == 0)
        invariant hand == old(clock) + steps && clock == hand + 4
        invariant Filled(slots[..]) + count == old(Filled(slots[..]))
        invariant Weight(slots[..]) + freed == old(Weight(slots[..]))
        invariant AgedAll(old(slots[..]), slots[..], old(clock), steps)
        invariant steps % 4 == 0 && steps < 3 * slots.Length + 4
        invariant forall i: nat :: 4 <= i <= steps && i % 4 == 0 ==> !MayStop(old(slots[..]), old(clock), i, request)
        decreases max + 4 - hand
      {
        ghost var mid := slots[..];
        var c, n := EvictBatch(hand);
        AgedThen(old(slots[..]), mid, slots[..], old(clock), steps, 4);
        freed, count, steps := freed + c, count + n, steps + 4;
        AgedFrees(old(slots[..]), slots[..], old(clock), steps);
        if freed >= request { return; }
        if hand >= max {
          ThreeRoundsWear(old(slots[..]), slots[..], old(clock), steps, bits);
          return;
        }
        hand := clock;
        clock := clock + 4;
      }
    }

    /** Charges c under the strict limit, evicting what is needed; false means MemoryLimit. */
    method ChargeUsageMaybeEvictStrict(c: nat, capacity: nat, needSlot: bool) returns (ok: bool, ghost steps: nat)
      requires Shape() && Good(slots[..], bits)
      modifies slots, this
      ensures Good(slots[..], bits) && AloneSame(old(alone), old(aside))
      ensures AgedAll(old(slots[..]), slots[..], old(clock), steps)
      ensures occupancy - Filled(slots[..]) == old(occupancy - Filled(slots[..]))
      ensures usage - Weight(slots[..]) == old(usage - Weight(slots[..])) + if ok then c else 0
      ensures Filled(slots[..]) <= old(Filled(slots[..]))
      ensures if c > capacity then !ok && steps == 0
              else EvictedFor(old(slots[..]), old(clock), steps, StrictNeed(old(usage), c, capacity, needSlot))
      ensures clock == old(clock) + steps && (steps == 0 ==> slots[..] == old(slots[..]))
      ensures ok <==> c <= capacity && EnoughFreed(old(slots[..]), slots[..], old(usage), c, capacity, needSlot)
      ensures !ok ==> c > capacity || steps >= 3 * slots.Length + 4
      ensures old(usage) <= capacity ==> usage <= capacity
    {
      hide AgedAll, Filled, Weight, Good, StopsAt;
      AgedNone(slots[..], clock);
      steps := 0;
      if c > capacity { return false, 0; }
      var before := usage;
      usage := Min(capacity, usage + c);
      var need := before + c - usage;
      var request := if needSlot && need == 0 then 1 else need;
      if request > 0 {
        var freed, count;
        freed, count, steps := Evict(request);
        occupancy := occupancy - count;
        if freed > need {
          usage := usage - (freed - need);
        } else if freed < need || (needSlot && count == 0) {
          usage := usage - (freed + (usage - before));
          return false, steps;
        }
      }
      return true, steps;
    }

    /** Charges c, evicting on a best-effort basis; false means that no slot could be freed. */
    method ChargeUsageMaybeEvictNonStrict(c: nat, capacity: nat, needSlot: bool) returns (ok: bool, ghost steps: nat)
      requires Shape() && Good(slots[..], bits)
      modifies slots, this
      ensures Good(slots[..], bits) && AloneSame(old(alone), old(aside))
      ensures AgedAll(old(slots[..]), slots[..], old(clock), steps)
      ensures occupancy - Filled(slots[..]) == old(occupancy - Filled(slots[..]))
      ensures usage - Weight(slots[..]) == old(usage - Weight(slots[..])) + if ok then c else 0
      ensures Filled(slots[..]) <= old(Filled(slots[..]))
      ensures EvictedFor(old(slots[..]), old(clock), steps, LooseNeed(old(usage), c, capacity, needSlot))
      ensures clock == old(clock) + steps && (steps == 0 ==> slots[..] == old(slots[..]))
      ensures ok <==> SlotFreed(old(slots[..]), slots[..], needSlot)
      ensures !ok ==> steps >= 3 * slots.Length + 4
      ensures ok && c <= old(usage) && steps < 3 * slots.Length + 4 ==> usage <= capacity || usage < old(usage)
    {
      hide AgedAll, Filled, Weight, Good, StopsAt;
      LooseNeedMeans(usage, c, capacity, needSlot);
      AgedNone(slots[..], clock);
      var need := LooseNeed(usage, c, capacity, needSlot);
      var freed, count := 0, 0;
      steps := 0;
      if need > 0 {
        freed, count, steps := Evict(need);
        if needSlot && count == 0 { return false, steps; }
        occupancy := occupancy - count;
      }
      usage := usage + c - freed;
      return true, steps;
    }

    /** The table part of Insert: the first empty slot on k's path takes the entry, unless a visible entry for k
        comes first (hit), whose clock is boosted.  The bound on the number of probes is never reached. */
    method Place(k: Key, c: nat, countdown: nat, got: nat) returns (h: nat, hit: bool)
      requires Shape() && Good(slots[..], bits) && Filled(slots[..]) < slots.Length && got <= 1 <= countdown
      modifies slots
      ensures h < slots.Length && Good(slots[..], bits)
      ensures if hit then BoostedAt(old(slots[..]), slots[..], h, k, countdown)
              else PutAt(old(slots[..]), slots[..], h, Slot(Meta(Visible, countdown, countdown - got), k, c, 0))
      ensures Filled(slots[..]) == old(Filled(slots[..])) + (if hit then 0 else 1)
      ensures Weight(slots[..]) == old(Weight(slots[..])) + (if hit then 0 else c)
      ensures FirstFit(old(slots[..]), k, h, bits)
    {
      ghost var ss := slots[..];
      ghost var last, free := InsertFindsSlot(ss, bits, k);
      h := First(k, slots.Length);
      FirstTurn(k, bits);
      var probe := 0;
      while probe < slots.Length && !slots[h].meta.st.Empty? && !Matches(slots[h], k)
        invariant h < slots.Length && PushedUpTo(ss, slots[..], k, probe, bits)
        invariant probe == Turn(k, h, bits) <= last
      {
        assert slots[..][h].meta == ss[h].meta;
        if probe == last { SameTurn(k, h, free, bits); }
        PushedOneMore(ss, slots[..], k, h, bits);
        NextTurn(k, h, bits);
        slots[h] := slots[h].(disp := slots[h].disp + 1);
        h := Advance(k, h, slots.Length);
        probe := probe + 1;
      }
      hit := !slots[h].meta.st.Empty?;
      assert slots[..][h] == ss[h];
      if hit {
        ghost var mid := slots[..];
        var x := Boosted(slots[h], countdown);
        slots[h] := x;
        Rollback(k, h);
        RolledBack(ss, mid, slots[..], k, h, bits, x);
        SameFullness(ss, h, x.meta, bits);
      } else {
        var x := Slot(Meta(Visible, countdown, countdown - got), k, c, slots[h].disp);
        PutFits(ss, slots[..], k, h, x, bits);
        slots[h] := x;
      }
    }

    /** StandaloneInsert, for an entry that is charged already. */
    method StandaloneInsert(k: Key, c: nat) returns (h: nat)
      requires forall j: nat :: j < |aside| ==> AloneOk(aside[j])
      requires alone == Weight(aside)
      modifies this`alone, this`aside
      ensures h == slots.Length + |old(aside)| && aside == old(aside) + [NewAlone(k, c)]
      ensures Refcount(Handle(h).meta) == 1 && Handle(h).key == k && Handle(h).charge == c
      ensures alone == old(alone) + c == Weight(aside) && forall j: nat :: j < |aside| ==> AloneOk(aside[j])
    {
      hide Weight;
      WeightAppend(aside, NewAlone(k, c));
      h := slots.Length + |aside|;
      aside := aside + [NewAlone(k, c)];
      alone := alone + c;
    }

    /** mid is the table after the evictions. */
    method Insert(k: Key, c: nat, countdown: nat, wantsHandle: bool, capacity: nat, strict: bool)
      returns (r: InsertResult, ghost mid: seq<Slot>, ghost steps: nat)
      requires Valid() && 1 <= countdown <= 3
      modifies this, slots
      ensures Valid() && AgedAll(old(slots[..]), mid, old(clock), steps)
      ensures EvictedToInsert(old(slots[..]), old(clock), steps, old(usage), c, capacity, strict,
        old(occupancy) >= occLimit)
      ensures clock == old(clock) + steps && (steps == 0 ==> mid == old(slots[..]))
      ensures r.Failed? <==>
        strict && !(c <= capacity && EnoughFreed(old(slots[..]), mid, old(usage), c, capacity,
          old(occupancy) >= occLimit))
      ensures r.Failed? ==> slots[..] == mid && (c > capacity || steps >= 3 * slots.Length + 4)
      ensures r.InTable? ==> FirstFit(mid, k, r.h, bits)
      ensures r.InTable? ==>
        PutAt(mid, slots[..], r.h, Slot(Meta(Visible, countdown, countdown - (if wantsHandle then 1 else 0)), k, c, 0))
      ensures r.Standalone? || r.Dropped? ==> (r.Standalone? <==> wantsHandle)
      ensures r.Standalone? || r.Dropped? ==>
        if strict || SlotFreed(old(slots[..]), mid, old(occupancy) >= occLimit)
        then exists h: nat :: FirstFit(mid, k, h, bits) && BoostedAt(mid, slots[..], h, k, countdown)
        else slots[..] == mid && steps >= 3 * slots.Length + 4
      ensures if r.Standalone? then r.h == slots.Length + |old(aside)| && aside == old(aside) + [NewAlone(k, c)]
              else AloneSame(old(alone), old(aside))
      ensures strict && old(usage) <= capacity ==> usage <= capacity
    {
      hide AgedAll, Filled, Weight, Good, FirstFit, EvictedFor, LooseNeed;
      var needSlot := occupancy >= occLimit;
      occupancy := occupancy + 1;
      var charged;
      if strict {
        charged, steps := ChargeUsageMaybeEvictStrict(c, capacity, needSlot);
        mid := slots[..];
        if !charged {
          occupancy := occupancy - 1;
          return Failed, mid, steps;
        }
      } else {
        charged, steps := ChargeUsageMaybeEvictNonStrict(c, capacity, needSlot);
        mid := slots[..];
        if !charged {
          occupancy := occupancy - 1;
          if !wantsHandle { return Dropped, mid, steps; }
          usage := usage + c;
          var h := StandaloneInsert(k, c);
          return Standalone(h), mid, steps;
        }
      }
      var h, hit := Place(k, c, countdown, if wantsHandle then 1 else 0);
      if !hit { return InTable(h), mid, steps; }
      assert FirstFit(mid, k, h, bits) && BoostedAt(mid, slots[..], h, k, countdown);
      occupancy := occupancy - 1;
      if !wantsHandle {
        usage := usage - c;
        return Dropped, mid, steps;
      }
      var a := StandaloneInsert(k, c);
      return Standalone(a), mid, steps;
    }

    /** A handle that is never in the table; under the strict limit it may be left uncharged, or be refused. */
    method CreateStandalone(k: Key, c: nat, capacity: nat, strict: bool, allowUncharged: bool)
      returns (r: Option<nat>, ghost steps: nat)
      requires Valid()
      modifies this, slots
      ensures Valid() && AgedAll(old(slots[..]), slots[..], old(clock), steps)
      ensures EvictedToInsert(old(slots[..]), old(clock), steps, old(usage), c, capacity, strict, false)
      ensures clock == old(clock) + steps && (steps == 0 ==> slots[..] == old(slots[..]))
      ensures r.None? ==> AloneSame(old(alone), old(aside))
      ensures var ok := !strict ||
          (c <= capacity && EnoughFreed(old(slots[..]), slots[..], old(usage), c, capacity, false));
        && (r.Some? <==> ok || allowUncharged)
        && (r.Some? ==> aside == old(aside) + [NewAlone(k, if ok then c else 0)])
      ensures r.None? ==> c > capacity || steps >= 3 * slots.Length + 4
      ensures r.Some? ==> r.value == slots.Length + |old(aside)|
      ensures r.Some? && aside != old(aside) + [NewAlone(k, c)] ==> c > capacity || steps >= 3 * slots.Length + 4
      ensures strict && old(usage) <= capacity ==> usage <= capacity
    {
      hide AgedAll, Filled, Weight, Good;
      var charge, ok := c, true;
      if strict {
        ok, steps := ChargeUsageMaybeEvictStrict(c, capacity, false);
        if !ok && !allowUncharged { return None, steps; }
        if !ok { charge := 0; }
      } else {
        ok, steps := ChargeUsageMaybeEvictNonStrict(c, capacity, false);
        assert ok;  // no slot is needed, so that this charge never has to be forced
      }
      var h := StandaloneInsert(k, charge);
      return Some(h), steps;
    }

    method Ref(h: nat)
      requires Valid() && Exists(h) && Shareable(Handle(h).meta) && Refcount(Handle(h).meta) > 0
      modifies slots, this`aside
      ensures Valid()
      ensures if h < slots.Length
              then aside == old(aside) && slots[..] == old(slots[..])[h := Referenced(old(Handle(h)))]
              else slots[..] == old(slots[..]) && aside == old(aside)[h - slots.Length := Referenced(old(Handle(h)))]
    {
      if h < slots.Length {
        SameFullness(slots[..], h, Acquired(slots[h].meta, 1), bits);
        slots[h] := Referenced(slots[h]);
      } else {
        var j := h - slots.Length;
        WeightUpdate(aside, j, Referenced(aside[j]));
        aside := aside[j := Referenced(aside[j])];
      }
    }

    /** Gives a reference back; the last reference to an invisible entry (as standalone ones are), or any last one on
        request, frees it. */
    method Release(h: nat, useful: bool, eraseIfLast: bool) returns (erased: bool)
      requires Valid() && Exists(h) && Shareable(Handle(h).meta) && Refcount(Handle(h).meta) > 0
      modifies this, slots
      ensures Valid() && clock == old(clock) && |aside| == |old(aside)|
      ensures erased <==> (eraseIfLast || old(Handle(h)).meta.st.Invisible?) && Refcount(old(Handle(h)).meta) == 1
      ensures Handle(h) == old(Handle(h)).(
                meta := if !erased then GivenBack(old(Handle(h)).meta, useful)
                        else if h < slots.Length then EMPTY else GONE,
                disp := Handle(h).disp)
      ensures forall j: nat :: j < slots.Length + |aside| && j != h ==>
        Handle(j) == old(Handle(j)).(disp := Handle(j).disp)
    {
      if h < slots.Length {
        erased := ReleaseSlot(h, useful, eraseIfLast);
      } else {
        erased := ReleaseAlone(h - slots.Length, useful);
      }
    }

    method ReleaseSlot(h: nat, useful: bool, eraseIfLast: bool) returns (erased: bool)
      requires Valid() && h < slots.Length && Shareable(slots[h].meta) && Refcount(slots[h].meta) > 0
      modifies this, slots
      ensures Valid() && AloneSame(old(alone), old(aside)) && clock == old(clock)
      ensures erased <==> (eraseIfLast || old(slots[h].meta.st.Invisible?)) && Refcount(old(slots[h].meta)) == 1
      ensures slots[h] == old(slots[h]).(meta := if erased then EMPTY else GivenBack(old(slots[h].meta), useful),
                                         disp := slots[h].disp)
      ensures forall j: nat :: j < slots.Length && j != h ==> slots[j] == old(slots[j]).(disp := slots[j].disp)
    {
      var m := GivenBack(slots[h].meta, useful);
      SameFullness(slots[..], h, m, bits);
      slots[h] := slots[h].(meta := m);
      if eraseIfLast || m.st.Invisible? {
        if Refcount(m) != 0 { return false; }
        Free(h);
        return true;
      }
      return false;
    }

    /** A standalone handle is deleted with its last reference. */
    method ReleaseAlone(j: nat, useful: bool) returns (erased: bool)
      requires Valid() && j < |aside| && Shareable(aside[j].meta) && Refcount(aside[j].meta) > 0
      modifies this`usage, this`alone, this`aside
      ensures Valid() && (erased <==> Refcount(old(aside)[j].meta) == 1)
      ensures var x := old(aside)[j];
        aside == old(aside)[j := x.(meta := if erased then GONE else GivenBack(x.meta, useful))]
    {
      var x := aside[j];
      var m := GivenBack(x.meta, useful);
      erased := Refcount(m) == 0;
      if erased {
        m := GONE;
        alone := alone - x.charge;
        usage := usage - x.charge;
      }
      WeightUpdate(aside, j, x.(meta := m));
      aside := aside[j := x.(meta := m)];
    }

    /** Frees every entry that nobody references, and no other. */
    method EraseUnRefEntries()
      requires Valid()
      modifies this, slots
      ensures Valid() && AloneSame(old(alone), old(aside)) && clock == old(clock)
      ensures forall j: nat :: j < slots.Length ==> SameContent(Kept(old(slots[j])), slots[j])
    {
      for i := 0 to slots.Length
        invariant Valid() && AloneSame(old(alone), old(aside)) && clock == old(clock)
        invariant forall j: nat :: j < slots.Length ==>
          SameContent(if j < i then Kept(old(slots[j])) else old(slots[j]), slots[j])
      {
        if Shareable(slots[i].meta) && Refcount(slots[i].meta) == 0 { Free(i); }
      }
    }
  }
}
