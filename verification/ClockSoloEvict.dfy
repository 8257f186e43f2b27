/**
 Evict in the concurrent clock table, if nobody interferes: it does to the slots what the table run one operation at a
 time does to them, and stops where that one stops.
 */
module ClockSoloEvict {
  import opened Basics
  import opened ClockProbe
  import opened ClockMachine
  import opened ClockTable
  import opened ClockSolo
  import opened Sums
  import ClockOwnership
  import Rolled = ClockSoloErase

  /** A slot with its entry's key and charge. */
  function SlotOf(s: State, h: nat): Slot
    requires h < |s.handles|
  {
    var x := s.handles[h];
    if x.entry < |s.entries| then Slot(x.meta, s.entries[x.entry].key, s.entries[x.entry].charge, x.disp)
    else Slot(x.meta, Key(0, 0), 0, x.disp)
  }

  function Slots(s: State): (ss: seq<Slot>)
    requires Shaped(s)
    ensures |ss| == s.size && forall h: nat :: h < s.size ==> ss[h] == SlotOf(s, h)
  {
    seq(s.size, h requires 0 <= h < s.size => SlotOf(s, h))
  }

  // ---------------------------------------------------------------- the slot under the hand

  /** The rollback before an entry is freed. */
  lemma {:induction false} Rolls(s: State, t: nat, h: nat, e: nat, cur: nat, cont: Cont, n: nat) returns (a: nat)
    requires Shaped(s) && s.size == Pow2(n) && t < |s.threads| && h < s.size && cur < s.size && e < |s.entries|
    requires var k := s.entries[e].key; Turn(k, cur, n) <= Turn(k, h, n)
    ensures var k := s.entries[e].key;
      Goes(SetPc(s, t, Remove(Roll(h, e, cur, cont))), t, a,
           SetPc(s.(handles := Rolled.Lowered(s.handles, k, cur, h, n)), t, Remove(Dispose(h, e, cont))))
    decreases Turn(s.entries[e].key, h, n) - Turn(s.entries[e].key, cur, n)
  {
    hide Goes, Turn, Advance, Rolled.Lowered, Pow2;
    var k := s.entries[e].key;
    var s0 := SetPc(s, t, Remove(Roll(h, e, cur, cont)));
    if cur == h {
      Rolled.LoweredNone(s.handles, k, h, n);
      SetTwice(s, t, Remove(Roll(h, e, cur, cont)), Remove(Dispose(h, e, cont)));
      OneGo(s0, t);
      a := 1;
    } else {
      if Turn(k, cur, n) == Turn(k, h, n) { SameTurn(k, cur, h, n); }
      Rolled.LoweredMore(s.handles, k, cur, h, n);
      var next := Advance(k, cur, Pow2(n));
      var m := AddDisp(s, cur, -1);
      SetTwice(m, t, Remove(Roll(h, e, cur, cont)), Remove(Roll(h, e, next, cont)));
      OneGo(s0, t);
      var b := Rolls(m, t, h, e, next, cont, n);
      GoesThen(s0, t, 1, SetPc(m, t, Remove(Roll(h, e, next, cont))), b,
               SetPc(s.(handles := Rolled.Lowered(s.handles, k, cur, h, n)), t, Remove(Dispose(h, e, cont))));
      a := 1 + b;
    }
  }

  /** Slot h is taken over, its entry freed and its displacements taken back; totals are not touched. */
  ghost function Cleared(s: State, h: nat, n: nat): State
    requires Shaped(s) && h < s.size == Pow2(n) && s.handles[h].entry < |s.entries|
  {
    var e := s.handles[h].entry;
    var k := s.entries[e].key;
    var m := SetMeta(s, h, OWNED);
    SetMeta(DisposeOf(m.(handles := Rolled.Lowered(m.handles, k, First(k, s.size), h, n)), e), h, EMPTY)
  }

  /** From a take-over to the end of the removal, as far as the slot is concerned. */
  lemma Clears(s: State, t: nat, h: nat, cont: Cont, n: nat) returns (a: nat)
    requires Shaped(s) && s.size == Pow2(n) && t < |s.threads| && h < s.size && s.handles[h].entry < |s.entries|
    requires !cont.ToErase?
    ensures var e := s.handles[h].entry;
      var c := s.entries[e].charge;
      var last := if cont.ToEvict?
                  then Mark(h, 0, ToEvict(cont.ev.(freed := cont.ev.freed + c, count := cont.ev.count + 1)))
                  else Mark(h, c, cont);
      && Cleared(s, h, n).threads == s.threads && Cleared(s, h, n).size == s.size
      && Goes(TakeOver(s, t, h, cont), t, a,
              SetPc(SetMeta(Cleared(s, h, n), h, OWNED), t, Remove(last)))
  {
    hide Goes, Turn, Pow2, First, Rolled.Lowered;
    var e := s.handles[h].entry;
    var k, c := s.entries[e].key, s.entries[e].charge;
    var m := SetMeta(s, h, OWNED);
    var s0 := SetPc(m, t, Remove(Roll(h, e, First(k, s.size), cont)));
    FirstTurn(k, n);
    var b := Rolls(m, t, h, e, First(k, s.size), cont, n);
    var x := m.(handles := Rolled.Lowered(m.handles, k, First(k, s.size), h, n));
    var s1 := SetPc(x, t, Remove(Dispose(h, e, cont)));
    var last := if cont.ToEvict?
                then Mark(h, 0, ToEvict(cont.ev.(freed := cont.ev.freed + c, count := cont.ev.count + 1)))
                else Mark(h, c, cont);
    SetTwice(DisposeOf(x, e), t, Remove(Dispose(h, e, cont)), Remove(last));
    OneGo(s1, t);
    LoweredOwned(m, k, h, n);
    assert SetMeta(Cleared(s, h, n), h, OWNED).handles == x.handles;
    a := b + 1;
    GoesThen(s0, t, b, s1, 1, SetPc(DisposeOf(x, e), t, Remove(last)));
  }

  /** Lowering counts leaves the rest of a handle. */
  lemma LoweredOwned(m: State, k: Key, h: nat, n: nat)
    requires Shaped(m) && h < m.size == Pow2(n)
    ensures var hs := Rolled.Lowered(m.handles, k, First(k, m.size), h, n);
      forall g: nat :: g < |m.handles| ==>
        hs[g] == m.handles[g].(disp := hs[g].disp) && (g >= m.size ==> hs[g] == m.handles[g])
  {
    hide Turn, First;
  }

  // ---------------------------------------------------------------- one position of the hand

  predicate Disposed(a: Entry, b: Entry) {
    b == a.(loc := Gone, disposals := a.disposals + 1)
  }

  /** What a move of the hand leaves alone. */
  predicate SameRest(s: State, m: State) {
    && m.size == s.size && m.occLimit == s.occLimit && m.base == s.base && m.users == s.users && m.threads == s.threads
    && m.usage == s.usage && m.occupancy == s.occupancy && |m.handles| == |s.handles| && |m.entries| == |s.entries|
    && (forall h: nat :: h < |s.handles| ==> m.handles[h].entry == s.handles[h].entry)
    && (forall h: nat :: s.size <= h < |s.handles| ==> m.handles[h] == s.handles[h])
  }

  /** e was in a slot that does not hold anything to share any more. */
  ghost predicate Evicted(s: State, m: State, e: nat)
    requires SameRest(s, m) && Shaped(s)
  {
    exists h: nat :: h < s.size && s.handles[h].entry == e && Shareable(s.handles[h].meta)
      && !Shareable(m.handles[h].meta)
  }

  /** Evicted entries are disposed of, and no others. */
  ghost predicate EntriesKept(s: State, m: State)
    requires SameRest(s, m) && Shaped(s)
  {
    forall e: nat :: e < |s.entries| ==>
      if Evicted(s, m, e) then Disposed(s.entries[e], m.entries[e]) else m.entries[e] == s.entries[e]
  }

  /** The hand has passed slot h, and nothing else has happened. */
  ghost predicate TickedAt(s: State, m: State, h: nat) {
    && Shaped(s) && SameRest(s, m) && m.clock == s.clock && h < s.size && EntriesKept(s, m)
    && m.handles[h].meta == Tick(s.handles[h].meta)
    && (forall g: nat :: g < s.size && g != h ==> m.handles[g].meta == s.handles[g].meta)
  }

  /** What passing slot h frees. */
  function TickFrees(s: State, h: nat): nat
    requires h < |s.handles|
  {
    if Shareable(s.handles[h].meta) && !Shareable(Tick(s.handles[h].meta)) then SlotOf(s, h).charge else 0
  }

  function TickCounts(s: State, h: nat): nat
    requires h < |s.handles|
  {
    B(Shareable(s.handles[h].meta) && !Shareable(Tick(s.handles[h].meta)))
  }

  /** Slots that share have entries of their own. */
  ghost predicate Owned(s: State) {
    && (forall h: nat :: h < |s.handles| && Shareable(s.handles[h].meta) ==> s.handles[h].entry < |s.entries|)
    && (forall g: nat, h: nat :: g < h < |s.handles| && Shareable(s.handles[g].meta) && Shareable(s.handles[h].meta) ==>
          s.handles[g].entry != s.handles[h].entry)
  }

  lemma InvOwned(s: State)
    requires ClockOwnership.Inv(s)
    ensures Owned(s)
  {
    hide ClockOwnership.Inv;
    forall h: nat | h < |s.handles| && Shareable(s.handles[h].meta)
      ensures s.handles[h].entry < |s.entries| && s.entries[s.handles[h].entry].loc == InHandle(h)
    {
      SharedIsStored(s, h);
    }
  }

  lemma ClearedTicks(s: State, h: nat, n: nat)
    requires Shaped(s) && h < s.size == Pow2(n) && Owned(s) && Shareable(s.handles[h].meta)
    requires Tick(s.handles[h].meta) == EMPTY
    ensures TickedAt(s, Cleared(s, h, n), h)
  {
    hide Turn, First, Rolled.Lowered;
    var m, e := SetMeta(s, h, OWNED), s.handles[h].entry;
    LoweredOwned(m, s.entries[e].key, h, n);
    var r := Cleared(s, h, n);
    assert Evicted(s, r, e);
    forall x: nat | x < |s.entries| && x != e ensures !Evicted(s, r, x) {}
  }

  lemma SetMetaTicks(s: State, h: nat)
    requires Shaped(s) && h < s.size && Shareable(Tick(s.handles[h].meta)) == Shareable(s.handles[h].meta)
    ensures TickedAt(s, SetMeta(s, h, Tick(s.handles[h].meta)), h)
  {
  }

  /** The next position of Evict, once h is passed. */
  function Passed(ev: Ev, s: State, h: nat): Ev
    requires h < |s.handles|
  {
    ev.(freed := ev.freed + TickFrees(s, h), count := ev.count + TickCounts(s, h))
  }

  lemma PassesIdle(s: State, t: nat, ev: Ev)
    requires Shaped(s) && t < |s.threads|
    requires var m := s.handles[(ev.ptr + ev.i) % s.size].meta; m.acq != m.rel || !Shareable(m)
    ensures Goes(SetPc(s, t, Evict(At(ev))), t, 1, SetPc(s, t, Evict(AfterSlot(ev))))
  {
    hide Goes;
    SetTwice(s, t, Evict(At(ev)), Evict(AfterSlot(ev)));
    OneGo(SetPc(s, t, Evict(At(ev))), t);
  }

  lemma SeesSlot(s: State, t: nat, ev: Ev)
    requires Shaped(s) && t < |s.threads|
    requires var m := s.handles[(ev.ptr + ev.i) % s.size].meta; m.acq == m.rel && Shareable(m)
    ensures var m := s.handles[(ev.ptr + ev.i) % s.size].meta;
      Goes(SetPc(s, t, Evict(At(ev))), t, 1, SetPc(s, t, Evict(Seen(ev, m))))
  {
    hide Goes;
    var m := s.handles[(ev.ptr + ev.i) % s.size].meta;
    SetTwice(s, t, Evict(At(ev)), Evict(Seen(ev, m)));
    OneGo(SetPc(s, t, Evict(At(ev))), t);
  }

  lemma CountsDown(s: State, t: nat, ev: Ev)
    requires Shaped(s) && t < |s.threads|
    requires var m := s.handles[(ev.ptr + ev.i) % s.size].meta; m.acq == m.rel > 0 && m.st.Visible?
    ensures var h := (ev.ptr + ev.i) % s.size;
      var m := s.handles[h].meta;
      Goes(SetPc(s, t, Evict(Seen(ev, m))), t, 1, SetPc(SetMeta(s, h, Tick(m)), t, Evict(AfterSlot(ev))))
  {
    hide Goes;
    var h := (ev.ptr + ev.i) % s.size;
    var m := s.handles[h].meta;
    SetTwice(SetMeta(s, h, Tick(m)), t, Evict(Seen(ev, m)), Evict(AfterSlot(ev)));
    OneGo(SetPc(s, t, Evict(Seen(ev, m))), t);
  }

  lemma TakesOver(s: State, t: nat, ev: Ev)
    requires Shaped(s) && t < |s.threads|
    requires var m := s.handles[(ev.ptr + ev.i) % s.size].meta;
      m.acq == m.rel && Shareable(m) && !(m.st.Visible? && m.acq > 0)
    ensures var h := (ev.ptr + ev.i) % s.size;
      Goes(SetPc(s, t, Evict(Seen(ev, s.handles[h].meta))), t, 1, TakeOver(s, t, h, ToEvict(ev)))
  {
    hide Goes;
    var h := (ev.ptr + ev.i) % s.size;
    var m, x := s.handles[h].meta, TakeOver(s, t, h, ToEvict(ev));
    SetTwice(SetMeta(s, h, OWNED), t, Evict(Seen(ev, m)), x.threads[t]);
    OneGo(SetPc(s, t, Evict(Seen(ev, m))), t);
  }

  lemma Empties(s: State, t: nat, h: nat, ev: Ev, n: nat) returns (a: nat)
    requires Shaped(s) && s.size == Pow2(n) && t < |s.threads| && h < s.size && s.handles[h].entry < |s.entries|
    ensures Cleared(s, h, n).threads == s.threads
    ensures var c := SlotOf(s, h).charge;
      Goes(TakeOver(s, t, h, ToEvict(ev)), t, a,
           SetPc(Cleared(s, h, n), t, Evict(AfterSlot(ev.(freed := ev.freed + c, count := ev.count + 1)))))
  {
    hide Goes, Cleared;
    var c := SlotOf(s, h).charge;
    var cont := ToEvict(ev.(freed := ev.freed + c, count := ev.count + 1));
    var b := Clears(s, t, h, ToEvict(ev), n);
    var r := Cleared(s, h, n);
    ClearedEmpty(s, h, n);
    var s1 := SetPc(SetMeta(r, h, OWNED), t, Remove(Mark(h, 0, cont)));
    assert SetMeta(SetMeta(r, h, OWNED), h, EMPTY).handles == r.handles;
    SetTwice(r, t, Remove(Mark(h, 0, cont)), Evict(AfterSlot(cont.ev)));
    OneGo(s1, t);
    a := b + 1;
    GoesThen(TakeOver(s, t, h, ToEvict(ev)), t, b, s1, 1, SetPc(r, t, Evict(AfterSlot(cont.ev))));
  }

  lemma ClearedEmpty(s: State, h: nat, n: nat)
    requires Shaped(s) && s.size == Pow2(n) && h < s.size && s.handles[h].entry < |s.entries|
    ensures var r := Cleared(s, h, n);
      |r.handles| == |s.handles| && r.size == s.size && r.handles[h].meta == EMPTY && r.threads == s.threads
  {
    hide Rolled.Lowered, First;
  }

  /** One position of the clock hand. */
  lemma EvictsAt(s: State, t: nat, ev: Ev, n: nat) returns (a: nat, m: State)
    requires Shaped(s) && s.size == Pow2(n) && t < |s.threads| && Owned(s)
    ensures TickedAt(s, m, (ev.ptr + ev.i) % s.size)
    ensures Goes(SetPc(s, t, Evict(At(ev))), t, a,
                 SetPc(m, t, Evict(AfterSlot(Passed(ev, s, (ev.ptr + ev.i) % s.size)))))
  {
    hide Goes, TickedAt, Cleared, AfterSlot, Owned;
    var h := (ev.ptr + ev.i) % s.size;
    var x := s.handles[h].meta;
    var s0 := SetPc(s, t, Evict(At(ev)));
    if x.acq != x.rel || !Shareable(x) {
      PassesIdle(s, t, ev);
      SetMetaTicks(s, h);
      assert SetMeta(s, h, Tick(x)).handles == s.handles;
      a, m := 1, s;
    } else {
      SeesSlot(s, t, ev);
      var s1 := SetPc(s, t, Evict(Seen(ev, x)));
      if x.st.Visible? && x.acq > 0 {
        CountsDown(s, t, ev);
        SetMetaTicks(s, h);
        a, m := 2, SetMeta(s, h, Tick(x));
        GoesThen(s0, t, 1, s1, 1, SetPc(m, t, Evict(AfterSlot(ev))));
      } else {
        OwnedAt(s, h);
        TakesOver(s, t, ev);
        var b := Empties(s, t, h, ev, n);
        m := Cleared(s, h, n);
        ClearedTicks(s, h, n);
        GoesThen(s0, t, 1, s1, 1, TakeOver(s, t, h, ToEvict(ev)));
        GoesThen(s0, t, 2, TakeOver(s, t, h, ToEvict(ev)), b, SetPc(m, t, Evict(AfterSlot(Passed(ev, s, h)))));
        a := 2 + b;
      }
    }
  }

  lemma OwnedAt(s: State, h: nat)
    requires Owned(s) && h < |s.handles| && Shareable(s.handles[h].meta)
    ensures s.handles[h].entry < |s.entries|
  {
  }

  // ---------------------------------------------------------------- many positions

  /** m is s after the hand has moved from position p over `steps` positions. */
  ghost predicate Moved(s: State, m: State, p: nat, steps: nat) {
    && Shaped(s) && SameRest(s, m) && EntriesKept(s, m) && AgedAll(Slots(s), Slots(m), p, steps)
  }

  /** What was freed on the way. */
  function FreedCharge(s: State, m: State): int
    requires Shaped(s) && Shaped(m)
  {
    Weight(Slots(s)) - Weight(Slots(m))
  }

  function FreedCount(s: State, m: State): int
    requires Shaped(s) && Shaped(m)
  {
    Filled(Slots(s)) - Filled(Slots(m))
  }

  lemma NotMoved(s: State, p: nat)
    requires Shaped(s)
    ensures Moved(s, s, p, 0) && FreedCharge(s, s) == 0 && FreedCount(s, s) == 0
  {
    AgedNone(Slots(s), p);
    assert forall e: nat :: e < |s.entries| ==> !Evicted(s, s, e);
  }

  /** Slots that were passed, and the one that is passed next. */
  lemma SlotsTick(s: State, m: State, h: nat)
    requires TickedAt(s, m, h) && Owned(s)
    ensures Slots(m)[h] == Slots(s)[h].(meta := Tick(Slots(s)[h].meta), disp := Slots(m)[h].disp)
    ensures forall g: nat :: g < s.size && g != h ==> Slots(m)[g] == Slots(s)[g].(disp := Slots(m)[g].disp)
  {
    forall g: nat | g < s.size ensures SlotOf(m, g).key == SlotOf(s, g).key
      && SlotOf(m, g).charge == SlotOf(s, g).charge {
      var e := s.handles[g].entry;
      if e < |s.entries| { assert m.entries[e].key == s.entries[e].key && m.entries[e].charge == s.entries[e].charge; }
    }
  }

  lemma TickTotals(s: State, m: State, h: nat)
    requires TickedAt(s, m, h) && Owned(s)
    ensures FreedCharge(s, m) == TickFrees(s, h) && FreedCount(s, m) == TickCounts(s, h)
  {
    var ss, rr := Slots(s), Slots(m);
    SlotsTick(s, m, h);
    assert Weights(rr) == Weights(ss)[h := Weights(rr)[h]];
    assert Fills(rr) == Fills(ss)[h := Fills(rr)[h]];
    SumUpdate(Weights(ss), h, Weights(rr)[h]);
    SumUpdate(Fills(ss), h, Fills(rr)[h]);
    TickShares(s.handles[h].meta);
  }

  lemma TickShares(m: Meta)
    ensures Shareable(Tick(m)) ==> Shareable(m)
    ensures !Shareable(Tick(m)) && Shareable(m) ==> Tick(m) == EMPTY
  {
  }

  lemma TickOwned(s: State, m: State, h: nat)
    requires TickedAt(s, m, h) && Owned(s)
    ensures Owned(m) && Shaped(m)
  {
    TickShares(s.handles[h].meta);
    forall g: nat | g < |s.handles| && Shareable(m.handles[g].meta) ensures Shareable(s.handles[g].meta) {
      if g < s.size && g != h { assert m.handles[g].meta == s.handles[g].meta; }
    }
  }

  lemma EvictedThen(s: State, m: State, r: State, p: nat, steps: nat, h: nat, e: nat)
    requires Moved(s, m, p, steps) && TickedAt(m, r, h) && Owned(s) && Owned(m) && e < |s.entries| && SameRest(s, r)
    ensures if Evicted(s, r, e) then Disposed(s.entries[e], r.entries[e]) else r.entries[e] == s.entries[e]
  {
    TickShares(m.handles[h].meta);
    AgedShares(s, m, p, steps);
    if Evicted(m, r, e) {
      var g: nat :| g < m.size && m.handles[g].entry == e && Shareable(m.handles[g].meta)
        && !Shareable(r.handles[g].meta);
      assert Shareable(s.handles[g].meta);
      assert Evicted(s, r, e);
      if Evicted(s, m, e) { assert false; }
    } else if Evicted(s, m, e) {
      var g: nat :| g < s.size && s.handles[g].entry == e && Shareable(s.handles[g].meta)
        && !Shareable(m.handles[g].meta);
      assert !Shareable(r.handles[g].meta);
      assert Evicted(s, r, e);
    }
  }

  /** Nothing comes to share by getting older. */
  lemma AgedShares(s: State, m: State, p: nat, steps: nat)
    requires Shaped(s) && SameRest(s, m) && AgedAll(Slots(s), Slots(m), p, steps)
    ensures forall g: nat :: g < s.size && Shareable(m.handles[g].meta) ==> Shareable(s.handles[g].meta)
  {
    forall g: nat | g < s.size && Shareable(m.handles[g].meta) ensures Shareable(s.handles[g].meta) {
      assert Slots(m)[g].meta == Aged(Slots(s)[g].meta, Visits(g, p, steps, s.size));
      AgedShare(Slots(s)[g].meta, Visits(g, p, steps, s.size));
    }
  }

  lemma {:induction false} AgedShare(m: Meta, v: nat)
    ensures Shareable(Aged(m, v)) ==> Shareable(m)
  {
    if v > 0 { AgedShare(m, v - 1); TickShares(Aged(m, v - 1)); }
  }

  lemma MovedMore(s: State, m: State, r: State, p: nat, steps: nat, h: nat)
    requires Moved(s, m, p, steps) && TickedAt(m, r, h) && Owned(s) && Owned(m) && h == (p + steps) % s.size
    ensures Moved(s, r, p, steps + 1)
    ensures FreedCharge(s, r) == FreedCharge(s, m) + TickFrees(m, h)
      && FreedCount(s, r) == FreedCount(s, m) + TickCounts(m, h)
  {
    hide AgedAll, Owned, Weight, Filled, Tick, Evicted;
    SlotsTick(m, r, h);
    TickTotals(m, r, h);
    AgedOneMore(Slots(s), Slots(m), Slots(r), p, steps, h);
    forall e: nat | e < |s.entries|
      ensures if Evicted(s, r, e) then Disposed(s.entries[e], r.entries[e]) else r.entries[e] == s.entries[e]
    {
      EvictedThen(s, m, r, p, steps, h, e);
    }
  }

  /** The hand at position i of its batch of four. */
  lemma {:induction false} EvictsBatch(s: State, m: State, t: nat, ev: Ev, p: nat, steps: nat, n: nat)
    returns (a: nat, r: State, ev2: Ev)
    requires Moved(s, m, p, steps + ev.i) && m.size == Pow2(n) && t < |m.threads| && Owned(s) && Owned(m)
    requires ev.i < 4 && ev.ptr == p + steps && ev.freed == FreedCharge(s, m) && ev.count == FreedCount(s, m)
    requires ev.count == 0 ==> ev.freed == 0
    ensures Moved(s, r, p, steps + 4) && Owned(r) && r.clock == m.clock
    ensures ev2 == ev.(freed := ev2.freed, count := ev2.count, i := 3) && (ev2.count == 0 ==> ev2.freed == 0)
    ensures ev2.freed == FreedCharge(s, r) && ev2.count == FreedCount(s, r)
    ensures Goes(SetPc(m, t, Evict(At(ev))), t, a, SetPc(r, t, Evict(AfterSlot(ev2))))
    decreases 4 - ev.i
  {
    hide Goes, Moved, Owned, TickedAt, FreedCharge, FreedCount;
    MovedShape(s, m, p, steps + ev.i);
    var h := (ev.ptr + ev.i) % m.size;
    var x;
    a, x := EvictsAt(m, t, ev, n);
    TickOwned(m, x, h);
    TickClock(m, x, h);
    MovedMore(s, m, x, p, steps + ev.i, h);
    var next := Passed(ev, m, h);
    if ev.i == 3 {
      r, ev2 := x, next;
    } else {
      var go := next.(i := ev.i + 1);
      assert AfterSlot(next) == At(go);
      var b;
      b, r, ev2 := EvictsBatch(s, x, t, go, p, steps, n);
      MovedShape(s, r, p, steps + 4);
      GoesThen(SetPc(m, t, Evict(At(ev))), t, a, SetPc(x, t, Evict(At(go))), b, SetPc(r, t, Evict(AfterSlot(ev2))));
      a := a + b;
    }
  }

  lemma MovedShape(s: State, m: State, p: nat, steps: nat)
    requires Moved(s, m, p, steps)
    ensures Shaped(s) && Shaped(m) && m.size == s.size && m.threads == s.threads && m.usage == s.usage
    ensures m.occupancy == s.occupancy && SameRest(s, m)
  {
  }

  lemma TickClock(s: State, m: State, h: nat)
    requires TickedAt(s, m, h)
    ensures m.clock == s.clock && m.threads == s.threads && m.size == s.size
  {
  }

  // ---------------------------------------------------------------- until enough is freed

  /** The hand is fetched for the next four slots. */
  lemma Fetches(m: State, t: nat, ev: Ev)
    requires Shaped(m) && t < |m.threads|
    ensures var limit := if ev.limit == 0 then m.clock + 3 * m.size else ev.limit;
      Goes(SetPc(m, t, Evict(Hand(ev))), t, 1,
           SetPc(m.(clock := m.clock + 4), t, Evict(At(ev.(ptr := m.clock, limit := limit, i := 0)))))
  {
    hide Goes;
    var limit := if ev.limit == 0 then m.clock + 3 * m.size else ev.limit;
    SetTwice(m.(clock := m.clock + 4), t, Evict(Hand(ev)), Evict(At(ev.(ptr := m.clock, limit := limit, i := 0))));
    OneGo(SetPc(m, t, Evict(Hand(ev))), t);
  }

  /** Evict has gone on for so many steps and may not stop yet. */
  ghost predicate Underway(s: State, m: State, ev: Ev, steps: nat) {
    && Moved(s, m, s.clock, steps) && Owned(s) && Owned(m) && m.clock == s.clock + steps && steps % 4 == 0
    && ev.freed == FreedCharge(s, m) && ev.count == FreedCount(s, m) && ev.request > 0
    && (ev.count == 0 ==> ev.freed == 0)
    && (if steps == 0 then ev.limit == 0 else ev.limit == s.clock + 3 * s.size)
    && (forall i: nat :: 4 <= i <= steps && i % 4 == 0 ==> !MayStop(Slots(s), s.clock, i, ev.request))
  }

  lemma FreedIs(s: State, m: State, p: nat, steps: nat)
    requires Moved(s, m, p, steps)
    ensures FreedCharge(s, m) == Freed(Slots(s), p, steps)
  {
    hide AgedAll, Freed, Weight;
    AgedFrees(Slots(s), Slots(m), p, steps);
  }

  lemma ClockAside(s: State, m: State, p: nat, steps: nat, c: nat)
    requires Moved(s, m, p, steps)
    ensures Moved(s, m.(clock := c), p, steps) && Slots(m.(clock := c)) == Slots(m)
    ensures Owned(m) ==> Owned(m.(clock := c))
  {
    var r := m.(clock := c);
    assert Slots(r) == Slots(m);
    forall e: nat | e < |s.entries| ensures Evicted(s, r, e) == Evicted(s, m, e) {}
  }

  /** One batch. */
  lemma EvictsFour(s: State, m: State, t: nat, ev: Ev, steps: nat, n: nat) returns (a: nat, r: State, ev2: Ev)
    requires Underway(s, m, ev, steps) && s.size == Pow2(n) && t < |m.threads|
    ensures Moved(s, r, s.clock, steps + 4) && Owned(r) && r.clock == s.clock + steps + 4
    ensures ev2 == ev.(freed := ev2.freed, count := ev2.count, ptr := s.clock + steps, limit := s.clock + 3 * s.size,
      i := 3)
    ensures ev2.freed == FreedCharge(s, r) && ev2.count == FreedCount(s, r) && (ev2.count == 0 ==> ev2.freed == 0)
    ensures Goes(SetPc(m, t, Evict(Hand(ev))), t, a, SetPc(r, t, Evict(AfterSlot(ev2))))
  {
    hide Goes, Moved, Owned, MayStop, FreedCharge, FreedCount;
    MovedShape(s, m, s.clock, steps);
    var x, at := m.(clock := m.clock + 4), ev.(ptr := m.clock, limit := s.clock + 3 * s.size, i := 0);
    Fetches(m, t, ev);
    ClockAside(s, m, s.clock, steps, m.clock + 4);
    SameFreed(s, m, x);
    var b;
    b, r, ev2 := EvictsBatch(s, x, t, at, s.clock, steps, n);
    MovedShape(s, r, s.clock, steps + 4);
    GoesThen(SetPc(m, t, Evict(Hand(ev))), t, 1, SetPc(x, t, Evict(At(at))), b, SetPc(r, t, Evict(AfterSlot(ev2))));
    a := 1 + b;
  }

  lemma SameFreed(s: State, m: State, x: State)
    requires Shaped(s) && Shaped(m) && Shaped(x) && Slots(x) == Slots(m)
    ensures FreedCharge(s, x) == FreedCharge(s, m) && FreedCount(s, x) == FreedCount(s, m)
  {
  }

  lemma StillUnderway(s: State, m: State, ev: Ev, steps: nat, r: State, ev2: Ev)
    requires Underway(s, m, ev, steps) && Moved(s, r, s.clock, steps + 4) && Owned(r) && r.clock == s.clock + steps + 4
    requires ev2 == ev.(freed := ev2.freed, count := ev2.count, ptr := s.clock + steps, limit := s.clock + 3 * s.size,
      i := 3)
    requires ev2.freed == FreedCharge(s, r) && ev2.count == FreedCount(s, r) && (ev2.count == 0 ==> ev2.freed == 0)
    ensures ev2.freed >= ev.request || ev2.ptr >= ev2.limit ==> StopsAt(Slots(s), s.clock, steps + 4, ev.request)
    ensures !(ev2.freed >= ev.request || ev2.ptr >= ev2.limit) ==> Underway(s, r, ev2, steps + 4) && steps < 3 * s.size
  {
    hide Moved, Owned, FreedCharge, FreedCount, Freed;
    MovedShape(s, r, s.clock, steps + 4);
    FreedIs(s, r, s.clock, steps + 4);
  }

  /** Evict alone: it moves the hand exactly as far as it takes. */
  lemma {:induction false} Evicts(s: State, m: State, t: nat, ev: Ev, steps: nat, n: nat)
    returns (a: nat, r: State, ev2: Ev, total: nat)
    requires Underway(s, m, ev, steps) && s.size == Pow2(n) && t < |m.threads| && steps < 3 * s.size + 4
    ensures Moved(s, r, s.clock, total) && r.clock == s.clock + total && StopsAt(Slots(s), s.clock, total, ev.request)
    ensures ev2.ins == ev.ins && ev2.need == ev.need && ev2.grabbed == ev.grabbed
    ensures ev2.freed == FreedCharge(s, r) && ev2.count == FreedCount(s, r) && (ev2.count == 0 ==> ev2.freed == 0)
    ensures Goes(SetPc(m, t, Evict(Hand(ev))), t, a, SetPc(r, t, Evict(Done(ev2))))
    decreases 3 * s.size + 4 - steps
  {
    hide Goes, Moved, Underway, StopsAt, FreedCharge, FreedCount, Owned;
    a, r, ev2 := EvictsFour(s, m, t, ev, steps, n);
    StillUnderway(s, m, ev, steps, r, ev2);
    MovedShape(s, r, s.clock, steps + 4);
    total := steps + 4;
    if !(ev2.freed >= ev2.request || ev2.ptr >= ev2.limit) {
      assert AfterSlot(ev2) == Hand(ev2);
      var x, xe, b := r, ev2, 0;
      UnderwayThreads(s, m, ev, steps);
      b, r, ev2, total := Evicts(s, x, t, xe, steps + 4, n);
      MovedShape(s, r, s.clock, total);
      GoesThen(SetPc(m, t, Evict(Hand(ev))), t, a, SetPc(x, t, Evict(Hand(xe))), b, SetPc(r, t, Evict(Done(ev2))));
      a := a + b;
    }
  }

  lemma UnderwayThreads(s: State, m: State, ev: Ev, steps: nat)
    requires Underway(s, m, ev, steps)
    ensures m.threads == s.threads
  {
  }
}
