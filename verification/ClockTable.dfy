/**
 HyperClockTable with operations run one at a time: probing, displacement counts, eviction, occupancy.

 Slots hold the meta word of module ClockMachine.  Each displacement count says how many stored entries were
 put further along their probe path than this slot, so a zero count lets a search stop.
 */
module ClockTable {
  import opened Basics
  import opened ClockProbe
  import opened ClockMachine
  import opened Sums

  datatype Slot = Slot(meta: Meta, key: Key, charge: nat, disp: int)

  // ---------------------------------------------------------------- displacement counts

  /** The probe path of k to slot h goes over slot j first. */
  ghost predicate Passes(k: Key, h: nat, j: nat, n: nat)
    requires h < Pow2(n) && j < Pow2(n)
  {
    Turn(k, j, n) < Turn(k, h, n)
  }

  /** What the content x of slot h adds to the displacement count of slot j. */
  ghost function Over(x: Slot, h: nat, j: nat, n: nat): int
    requires h < Pow2(n) && j < Pow2(n)
  {
    if Shareable(x.meta) && Passes(x.key, h, j, n) then 1 else 0
  }

  ghost function Overs(ss: seq<Slot>, j: nat, n: nat): seq<int>
    requires |ss| == Pow2(n) && j < |ss|
  {
    seq(|ss|, h requires 0 <= h < |ss| => Over(ss[h], h, j, n))
  }

  ghost predicate DispOk(ss: seq<Slot>, j: nat, n: nat)
    requires |ss| == Pow2(n) && j < |ss|
  {
    ss[j].disp == Sum(Overs(ss, j, n))
  }

  /** Every displacement count is the number of stored entries whose probe path passes over the slot. */
  ghost predicate Displaced(ss: seq<Slot>, n: nat) {
    |ss| == Pow2(n) && forall j: nat :: j < |ss| ==> DispOk(ss, j, n)
  }

  // ---------------------------------------------------------------- totals over the slots

  function Fills(ss: seq<Slot>): seq<int> {
    seq(|ss|, h requires 0 <= h < |ss| => if Shareable(ss[h].meta) then 1 else 0)
  }

  function Weights(ss: seq<Slot>): seq<int> {
    seq(|ss|, h requires 0 <= h < |ss| => if Shareable(ss[h].meta) then ss[h].charge else 0)
  }

  function Filled(ss: seq<Slot>): int {
    Sum(Fills(ss))
  }

  function Weight(ss: seq<Slot>): int {
    Sum(Weights(ss))
  }

  /** Between operations a slot is empty or holds an entry. */
  predicate SlotOk(x: Slot) {
    x.meta.st.Empty? || (Shareable(x.meta) && 0 <= x.meta.rel <= x.meta.acq)
  }

  ghost predicate Good(ss: seq<Slot>, n: nat) {
    Displaced(ss, n) && forall h: nat :: h < |ss| ==> SlotOk(ss[h])
  }

  // ---------------------------------------------------------------- one slot changes its content

  /** rr is ss with another content in slot h and displacement counts to match. */
  ghost predicate Differ(ss: seq<Slot>, rr: seq<Slot>, h: nat, n: nat) {
    && |ss| == Pow2(n) && |rr| == |ss| && h < |ss|
    && (forall g: nat {:trigger rr[g]} :: g < |ss| && g != h ==> rr[g] == ss[g].(disp := rr[g].disp))
    && (forall j: nat {:trigger rr[j].disp} :: j < |ss| ==>
          rr[j].disp - ss[j].disp == Over(rr[h], h, j, n) - Over(ss[h], h, j, n))
  }

  lemma DifferKeepsDisp(ss: seq<Slot>, rr: seq<Slot>, h: nat, n: nat, j: nat)
    requires Differ(ss, rr, h, n) && j < |ss| && DispOk(ss, j, n)
    ensures DispOk(rr, j, n)
  {
    assert Overs(rr, j, n) == Overs(ss, j, n)[h := Over(rr[h], h, j, n)];
    SumUpdate(Overs(ss, j, n), h, Over(rr[h], h, j, n));
    assert rr[j].disp - ss[j].disp == Over(rr[h], h, j, n) - Over(ss[h], h, j, n);
  }

  lemma DifferTotals(ss: seq<Slot>, rr: seq<Slot>, h: nat, n: nat)
    requires Differ(ss, rr, h, n)
    ensures Filled(rr) == Filled(ss) - Fills(ss)[h] + Fills(rr)[h]
    ensures Weight(rr) == Weight(ss) - Weights(ss)[h] + Weights(rr)[h]
  {
    assert Fills(rr) == Fills(ss)[h := Fills(rr)[h]];
    assert Weights(rr) == Weights(ss)[h := Weights(rr)[h]];
    SumUpdate(Fills(ss), h, Fills(rr)[h]);
    SumUpdate(Weights(ss), h, Weights(rr)[h]);
  }

  lemma DifferKeepsGood(ss: seq<Slot>, rr: seq<Slot>, h: nat, n: nat)
    requires Good(ss, n) && Differ(ss, rr, h, n) && SlotOk(rr[h])
    ensures Good(rr, n)
  {
    forall j: nat | j < |rr| ensures DispOk(rr, j, n) && SlotOk(rr[j]) {
      assert DispOk(ss, j, n) && SlotOk(ss[j]);
      DifferKeepsDisp(ss, rr, h, n, j);
    }
  }

  /** A new meta word that leaves the slot as full or as empty as it was. */
  lemma SameFullness(ss: seq<Slot>, h: nat, m: Meta, n: nat)
    requires Good(ss, n) && h < |ss| && Shareable(m) == Shareable(ss[h].meta) && SlotOk(ss[h].(meta := m))
    ensures Good(ss[h := ss[h].(meta := m)], n)
    ensures Filled(ss[h := ss[h].(meta := m)]) == Filled(ss) && Weight(ss[h := ss[h].(meta := m)]) == Weight(ss)
  {
    var rr := ss[h := ss[h].(meta := m)];
    assert Differ(ss, rr, h, n);
    DifferKeepsGood(ss, rr, h, n);
    DifferTotals(ss, rr, h, n);
  }

  // ---------------------------------------------------------------- searching

  predicate Matches(x: Slot, k: Key) {
    x.meta.st.Visible? && x.key == k
  }

  /** The reference for Lookup: go through all the slots in probe order, from the i-th probe on. */
  function FullScan(ss: seq<Slot>, k: Key, i: nat): Option<nat>
    decreases |ss| - i
  {
    if i >= |ss| then None
    else if Matches(ss[Probe(k, i, |ss|)], k) then Some(Probe(k, i, |ss|))
    else FullScan(ss, k, i + 1)
  }

  lemma ScanEnd(ss: seq<Slot>, k: Key)
    ensures FullScan(ss, k, |ss|) == None
  {
  }

  /** A full scan finds nothing exactly when no visible entry has the key. */
  lemma FullScanFindsAll(ss: seq<Slot>, k: Key, n: nat)
    requires |ss| == Pow2(n)
    ensures FullScan(ss, k, 0).None? <==> forall h: nat :: h < |ss| ==> !Matches(ss[h], k)
  {
    ScanFrom(ss, k, 0);
    if FullScan(ss, k, 0).None? {
      forall h: nat | h < |ss| ensures !Matches(ss[h], k) {
        assert Probe(k, Turn(k, h, n), |ss|) == h;
      }
    }
  }

  lemma {:induction false} ScanFrom(ss: seq<Slot>, k: Key, i: nat)
    requires |ss| > 0
    ensures FullScan(ss, k, i).None? ==> forall j: nat :: i <= j < |ss| ==> !Matches(ss[Probe(k, j, |ss|)], k)
    ensures FullScan(ss, k, i).Some? ==> FullScan(ss, k, i).value < |ss| && Matches(ss[FullScan(ss, k, i).value], k)
    decreases |ss| - i
  {
    if i < |ss| && !Matches(ss[Probe(k, i, |ss|)], k) { ScanFrom(ss, k, i + 1); }
  }

  /** A zero displacement count hides nothing: no entry for k lies further along the path. */
  lemma NothingBeyond(ss: seq<Slot>, n: nat, k: Key, j: nat)
    requires Displaced(ss, n) && j < |ss| && ss[j].disp == 0
    ensures forall h: nat :: h < |ss| && Shareable(ss[h].meta) && ss[h].key == k ==> Turn(k, h, n) <= Turn(k, j, n)
  {
    assert DispOk(ss, j, n);
    forall h: nat | h < |ss| && Shareable(ss[h].meta) && ss[h].key == k ensures Turn(k, h, n) <= Turn(k, j, n) {
      SumMember(Overs(ss, j, n), h);
    }
  }

  /** When the full scan finds its entry. */
  lemma {:induction false} ScanTurn(ss: seq<Slot>, k: Key, i: nat) returns (j: nat)
    requires FullScan(ss, k, i).Some?
    ensures i <= j < |ss| && FullScan(ss, k, i).value == Probe(k, j, |ss|) && Matches(ss[Probe(k, j, |ss|)], k)
    decreases |ss| - i
  {
    j := i;
    if !Matches(ss[Probe(k, i, |ss|)], k) { j := ScanTurn(ss, k, i + 1); }
  }

  /** One step of the full scan. */
  lemma ScanAt(ss: seq<Slot>, n: nat, k: Key, h: nat)
    requires |ss| == Pow2(n) && h < |ss|
    ensures FullScan(ss, k, Turn(k, h, n)) == if Matches(ss[h], k) then Some(h) else FullScan(ss, k, Turn(k, h, n) + 1)
  {
  }

  lemma ScanBeyond(ss: seq<Slot>, n: nat, k: Key, h: nat)
    requires Good(ss, n) && h < |ss| && ss[h].disp == 0
    ensures FullScan(ss, k, Turn(k, h, n) + 1) == None
  {
    NothingBeyond(ss, n, k, h);
    if FullScan(ss, k, Turn(k, h, n) + 1).Some? {
      var j := ScanTurn(ss, k, Turn(k, h, n) + 1);
      TurnOfProbe(k, j, n);
    }
  }

  /** With fewer entries than slots, some slot is empty. */
  lemma {:induction false} SomeEmpty(ss: seq<Slot>) returns (h: nat)
    requires Filled(ss) < |ss| && forall g: nat :: g < |ss| ==> SlotOk(ss[g])
    ensures h < |ss| && ss[h].meta.st.Empty?
  {
    h := |ss| - 1;
    assert SlotOk(ss[h]);
    if !ss[h].meta.st.Empty? {
      assert Fills(ss)[..h] == Fills(ss[..h]);
      h := SomeEmpty(ss[..h]);
    }
  }

  /** A table insertion always comes across an empty slot or an entry for its key. */
  lemma InsertFindsSlot(ss: seq<Slot>, n: nat, k: Key) returns (i: nat, h: nat)
    requires Good(ss, n) && Filled(ss) < Pow2(n)
    ensures i < Pow2(n) && h < |ss| && Probe(k, i, |ss|) == h && Turn(k, h, n) == i
    ensures ss[h].meta.st.Empty? || Matches(ss[h], k)
  {
    h := SomeEmpty(ss);
    i := Turn(k, h, n);
  }

  // ---------------------------------------------------------------- ageing

  /** What ClockUpdate, and the removal that follows it, make of a meta word. */
  function Tick(m: Meta): Meta {
    if m.acq != m.rel || !Shareable(m) then m
    else if m.st.Visible? && m.acq > 0 then Meta(Visible, Min(m.acq - 1, 2), Min(m.acq - 1, 2))
    else EMPTY
  }

  /** The compare-and-exchange of Evict in the concurrent machine does the same to the slot under the hand. */
  lemma EvictTicks(s: ClockMachine.State, t: nat, ev: Ev, seen: Meta)
    requires Shaped(s) && t < |s.threads| && Shareable(seen) && seen.acq == seen.rel
    requires s.handles[(ev.ptr + ev.i) % s.size].meta == seen
    ensures var r := GoEvict(s, t, Seen(ev, seen));
      r.handles[(ev.ptr + ev.i) % s.size].meta == if Shareable(Tick(seen)) then Tick(seen) else OWNED
  {
  }

  function Aged(m: Meta, v: nat): Meta {
    if v == 0 then m else Tick(Aged(m, v - 1))
  }

  /** How often the clock hand, moving from position p over `steps` positions, visits slot h. */
  function Visits(h: nat, p: nat, steps: nat, size: nat): nat
    requires size > 0
  {
    if steps == 0 then 0 else Visits(h, p, steps - 1, size) + if (p + steps - 1) % size == h then 1 else 0
  }

  lemma {:induction false} VisitsAdd(h: nat, p: nat, a: nat, b: nat, size: nat)
    requires size > 0
    ensures Visits(h, p, a + b, size) == Visits(h, p, a, size) + Visits(h, p + a, b, size)
  {
    if b > 0 { VisitsAdd(h, p, a, b - 1, size); }
  }

  lemma {:induction false} VisitSeen(h: nat, p: nat, steps: nat, size: nat, d: nat)
    requires size > 0 && d < steps && (p + d) % size == h
    ensures Visits(h, p, steps, size) >= 1
  {
    if d < steps - 1 { VisitSeen(h, p, steps - 1, size, d); }
  }

  /** A distance below `size` takes any position to any slot. */
  lemma Reach(p: nat, h: nat, size: nat) returns (d: nat)
    requires h < size
    ensures d < size && (p + d) % size == h
  {
    var r, q := p % size, p / size;
    assert p == size * q + r;
    if r <= h {
      d := h - r;
      ModUnique(p + d, size, q, h);
    } else {
      d := size + h - r;
      assert size * (q + 1) == size * q + size;
      ModUnique(p + d, size, q + 1, h);
    }
  }

  /** One round visits every slot, so three rounds visit every slot three times. */
  lemma ThreeRounds(h: nat, p: nat, steps: nat, size: nat)
    requires h < size && steps >= 3 * size
    ensures Visits(h, p, steps, size) >= 3
  {
    var d0 := Reach(p, h, size);
    var d1 := Reach(p + size, h, size);
    var d2 := Reach(p + 2 * size, h, size);
    VisitsAdd(h, p, size, steps - size, size);
    VisitsAdd(h, p + size, size, steps - 2 * size, size);
    VisitSeen(h, p, size, size, d0);
    VisitSeen(h, p + size, size, size, d1);
    VisitSeen(h, p + 2 * size, steps - 2 * size, size, d2);
  }

  /** Three visits wear down what nobody uses: an unreferenced invisible entry is gone, and an unreferenced
      visible one that is still there has no countdown left. */
  lemma {:induction false} ThreeVisits(m: Meta, v: nat)
    requires v >= 3 && (Shareable(m) ==> 0 <= m.rel <= m.acq)
    ensures Shareable(Aged(m, v)) && Refcount(Aged(m, v)) == 0 ==> Aged(m, v).st.Visible? && Aged(m, v).acq == 0
  {
    if v == 3 {
      assert Aged(m, 1) == Tick(Aged(m, 0));
      assert Aged(m, 2) == Tick(Aged(m, 1));
    } else {
      ThreeVisits(m, v - 1);
    }
  }

  /** rr is ss after the clock hand has moved from position p over `steps` positions. */
  ghost predicate AgedAll(ss: seq<Slot>, rr: seq<Slot>, p: nat, steps: nat) {
    && |ss| > 0 && |rr| == |ss|
    && forall h: nat :: h < |ss| ==>
         rr[h] == ss[h].(meta := Aged(ss[h].meta, Visits(h, p, steps, |ss|)), disp := rr[h].disp)
  }

  lemma AgedNone(ss: seq<Slot>, p: nat)
    requires |ss| > 0
    ensures AgedAll(ss, ss, p, 0)
  {
  }

  lemma AgedOneMore(ss: seq<Slot>, mid: seq<Slot>, rr: seq<Slot>, p: nat, steps: nat, h: nat)
    requires AgedAll(ss, mid, p, steps) && |rr| == |ss| && h == (p + steps) % |ss|
    requires rr[h] == mid[h].(meta := Tick(mid[h].meta), disp := rr[h].disp)
    requires forall j: nat :: j < |ss| && j != h ==> rr[j] == mid[j].(disp := rr[j].disp)
    ensures AgedAll(ss, rr, p, steps + 1)
  {
  }

  lemma {:induction false} AgedAdd(m: Meta, a: nat, b: nat)
    ensures Aged(m, a + b) == Aged(Aged(m, a), b)
  {
    if b > 0 { AgedAdd(m, a, b - 1); }
  }

  /** Two moves of the hand in a row are one longer move. */
  lemma AgedThen(ss: seq<Slot>, mid: seq<Slot>, rr: seq<Slot>, p: nat, a: nat, b: nat)
    requires AgedAll(ss, mid, p, a) && AgedAll(mid, rr, p + a, b)
    ensures AgedAll(ss, rr, p, a + b)
  {
    forall h: nat | h < |ss|
      ensures rr[h] == ss[h].(meta := Aged(ss[h].meta, Visits(h, p, a + b, |ss|)), disp := rr[h].disp)
    {
      VisitsAdd(h, p, a, b, |ss|);
      AgedAdd(ss[h].meta, Visits(h, p, a, |ss|), Visits(h, p + a, b, |ss|));
    }
  }

  /** How long an unreferenced visible entry lasts: as many visits as its countdown, but no more than three, and then
      it goes at the next one. */
  lemma {:induction false} Lifetime(m: Meta, v: nat)
    requires m.st.Visible? && m.acq == m.rel >= 0 && v > 0
    ensures var c := Min(m.acq, 3) - v; Aged(m, v) == if c >= 0 then Meta(Visible, c, c) else EMPTY
  {
    if v > 1 { Lifetime(m, v - 1); } else { assert Aged(m, 0) == m; }
  }

  /** An entry that is referenced keeps its meta word, and an unreferenced invisible one goes at once. */
  lemma {:induction false} Spared(m: Meta, v: nat)
    requires Shareable(m) && v > 0
    ensures Refcount(m) != 0 ==> Aged(m, v) == m
    ensures Refcount(m) == 0 && m.st.Invisible? ==> Aged(m, v) == EMPTY
  {
    if v > 1 { Spared(m, v - 1); } else { assert Aged(m, 0) == m; }
  }

  /** The table, displacement counts aside, after the hand has moved from position p over `steps` positions. */
  ghost function After(ss: seq<Slot>, p: nat, steps: nat): (rr: seq<Slot>)
    requires |ss| > 0
    ensures |rr| == |ss| && AgedAll(ss, rr, p, steps)
  {
    seq(|ss|, h requires 0 <= h < |ss| => ss[h].(meta := Aged(ss[h].meta, Visits(h, p, steps, |ss|))))
  }

  /** The charges freed on the way. */
  ghost function Freed(ss: seq<Slot>, p: nat, steps: nat): int
    requires |ss| > 0
  {
    Weight(ss) - Weight(After(ss, p, steps))
  }

  lemma AgedFrees(ss: seq<Slot>, rr: seq<Slot>, p: nat, steps: nat)
    requires AgedAll(ss, rr, p, steps)
    ensures Weight(ss) - Weight(rr) == Freed(ss, p, steps)
  {
    assert Weights(rr) == Weights(After(ss, p, steps));
  }

  /** Evict may stop here: enough is freed, or the hand has gone round three times. */
  ghost predicate MayStop(ss: seq<Slot>, p: nat, steps: nat, request: nat)
    requires |ss| > 0
  {
    Freed(ss, p, steps) >= request || steps >= 3 * |ss| + 4
  }

  /** The hand moves in steps of four, and no further than to where Evict may stop. */
  ghost predicate StopsAt(ss: seq<Slot>, p: nat, steps: nat, request: nat)
    requires |ss| > 0
  {
    && steps >= 4 && steps % 4 == 0 && MayStop(ss, p, steps, request)
    && forall i: nat :: 4 <= i < steps && i % 4 == 0 ==> !MayStop(ss, p, i, request)
  }

  /** Nothing moves if there is nothing to evict. */
  ghost predicate EvictedFor(ss: seq<Slot>, p: nat, steps: nat, request: nat)
    requires |ss| > 0
  {
    if request == 0 then steps == 0 else StopsAt(ss, p, steps, request)
  }

  /** No unreferenced invisible entry, and no countdown left on an unreferenced visible one. */
  ghost predicate Worn(ss: seq<Slot>) {
    forall h: nat :: h < |ss| && Shareable(ss[h].meta) && Refcount(ss[h].meta) == 0 ==>
      ss[h].meta == Meta(Visible, 0, 0)
  }

  lemma ThreeRoundsWear(ss: seq<Slot>, rr: seq<Slot>, p: nat, steps: nat, n: nat)
    requires Good(ss, n) && AgedAll(ss, rr, p, steps) && steps >= 3 * |ss|
    ensures Worn(rr)
  {
    forall h: nat | h < |rr| && Shareable(rr[h].meta) && Refcount(rr[h].meta) == 0
      ensures rr[h].meta == Meta(Visible, 0, 0)
    {
      assert SlotOk(ss[h]);
      ThreeRoundsLeave(ss, rr, p, steps, h);
    }
  }

  /** After three rounds every slot was visited three times, no unreferenced invisible entry is left, and an
      unreferenced visible entry that is left has countdown 0. */
  lemma ThreeRoundsLeave(ss: seq<Slot>, rr: seq<Slot>, p: nat, steps: nat, h: nat)
    requires AgedAll(ss, rr, p, steps) && steps >= 3 * |ss| && h < |ss| && SlotOk(ss[h])
    ensures Visits(h, p, steps, |ss|) >= 3
    ensures Shareable(rr[h].meta) && Refcount(rr[h].meta) == 0 ==> rr[h].meta == Meta(Visible, 0, 0)
  {
    ThreeRounds(h, p, steps, |ss|);
    ThreeVisits(ss[h].meta, Visits(h, p, steps, |ss|));
  }
}
