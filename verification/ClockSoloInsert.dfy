/**
 Insert and CreateStandalone in the concurrent clock table, if nobody interferes: they come to what the table run one
 operation at a time comes to.
 */
module ClockSoloInsert {
  import opened Basics
  import opened ClockProbe
  import opened ClockMachine
  import opened ClockTable
  import opened ClockSolo
  import opened ClockSoloEvict
  import opened HyperClockTable
  import Rolled = ClockSoloErase
  import Find = ClockSoloLookup
  import opened Sums
  import ClockOwnership
  import ClockRoom

  // ---------------------------------------------------------------- charging

  /** Totals have no influence on how the hand moves. */
  lemma TotalsAside(s: State, m: State, p: nat, steps: nat, u: int, o: int)
    requires Moved(s, m, p, steps)
    ensures Moved(s.(usage := u, occupancy := o), m.(usage := u, occupancy := o), p, steps)
    ensures Slots(s.(usage := u, occupancy := o)) == Slots(s) && Slots(m.(usage := u, occupancy := o)) == Slots(m)
  {
    var a, b := s.(usage := u, occupancy := o), m.(usage := u, occupancy := o);
    assert Slots(a) == Slots(s) && Slots(b) == Slots(m);
    forall e: nat | e < |s.entries| ensures Evicted(a, b, e) == Evicted(s, m, e) {}
  }

  lemma OwnedAside(s: State, u: int)
    requires Owned(s)
    ensures Owned(s.(usage := u))
  {
  }

  /** r is s after the evictions, the charge c being made if ok. */
  ghost predicate ChargedTo(s: State, r: State, steps: nat, c: nat, ok: bool) {
    var x := r.(usage := s.usage, occupancy := s.occupancy);
    && Moved(s, x, s.clock, steps) && r.clock == s.clock + steps && Shaped(r)
    && r.usage == s.usage + (if ok then c else 0) - FreedCharge(s, r)
    && r.occupancy == s.occupancy - FreedCount(s, r)
  }

  lemma ChargedShape(s: State, r: State, steps: nat, c: nat, ok: bool)
    requires ChargedTo(s, r, steps, c, ok)
    ensures Shaped(s) && Shaped(r) && r.size == s.size && r.threads == s.threads && r.users == s.users
    ensures |r.entries| == |s.entries| && |r.handles| == |s.handles|
    ensures AgedAll(Slots(s), Slots(r), s.clock, steps)
  {
    var x := r.(usage := s.usage, occupancy := s.occupancy);
    assert Slots(x) == Slots(r);
  }

  lemma ChargedNow(s: State, c: nat)
    requires Shaped(s)
    ensures ChargedTo(s, s.(usage := s.usage + c), 0, c, true)
  {
    var r := s.(usage := s.usage + c);
    NotMoved(s, s.clock);
    assert Slots(r) == Slots(s) && r.(usage := s.usage, occupancy := s.occupancy) == s;
  }

  /** What an eviction made under another usage comes to. */
  lemma ChargedThen(s: State, u: int, m: State, steps: nat, c: nat, ok: bool, r: State)
    requires Shaped(s) && Moved(s.(usage := u), m, s.clock, steps) && m.clock == s.clock + steps
    requires var x := s.(usage := u);
      r == m.(usage := s.usage + (if ok then c else 0) - FreedCharge(x, m), occupancy := s.occupancy - FreedCount(x, m))
    ensures ChargedTo(s, r, steps, c, ok) && FreedCharge(s, r) == FreedCharge(s.(usage := u), m)
    ensures FreedCount(s, r) == FreedCount(s.(usage := u), m) && Slots(r) == Slots(m)
  {
    hide Moved, FreedCharge, FreedCount;
    var x := s.(usage := u);
    MovedShape(x, m, s.clock, steps);
    TotalsAside(x, m, s.clock, steps, s.usage, s.occupancy);
    assert x.(usage := s.usage, occupancy := s.occupancy) == s;
    assert r.(usage := s.usage, occupancy := s.occupancy) == m.(usage := s.usage, occupancy := s.occupancy);
    assert Slots(s) == Slots(x) && Slots(r) == Slots(m);
    SameSlotsFreed(s, x, r, m);
  }

  lemma SameSlotsFreed(s: State, x: State, r: State, m: State)
    requires Shaped(s) && Shaped(x) && Shaped(r) && Shaped(m) && Slots(s) == Slots(x) && Slots(r) == Slots(m)
    ensures FreedCharge(s, r) == FreedCharge(x, m) && FreedCount(s, r) == FreedCount(x, m)
  {
  }

  lemma StartsEvicting(s: State, ev: Ev)
    requires Shaped(s) && Owned(s) && ev.request > 0 && ev.freed == 0 && ev.count == 0 && ev.limit == 0
    ensures Underway(s, s, ev, 0)
  {
    NotMoved(s, s.clock);
  }

  /** Evicting, and lowering occupancy_ by what was evicted, for an insertion that started at s and whose charge made
      the usage u. */
  lemma EvictsAndSettles(s: State, u: int, t: nat, ev: Ev, n: nat) returns (a: nat, m: State, ev2: Ev, steps: nat)
    requires Shaped(s) && Owned(s) && s.size == Pow2(n) && t < |s.threads|
    requires ev.request > 0 && ev.freed == 0 && ev.count == 0 && ev.limit == 0
    ensures var x := s.(usage := u);
      && Moved(x, m, s.clock, steps) && m.clock == s.clock + steps && StopsAt(Slots(s), s.clock, steps, ev.request)
      && ev2.freed == FreedCharge(x, m) && ev2.count == FreedCount(x, m)
      && Goes(SetPc(x, t, Evict(Hand(ev))), t, a, SetPc(m, t, Evict(Done(ev2))))
    ensures ev2.ins == ev.ins && ev2.need == ev.need && ev2.grabbed == ev.grabbed && (ev2.count == 0 ==> ev2.freed == 0)
  {
    hide Goes, Moved, Underway, StopsAt, FreedCharge, FreedCount, Owned;
    var x := s.(usage := u);
    OwnedAside(s, u);
    StartsEvicting(x, ev);
    assert Slots(x) == Slots(s);
    a, m, ev2, steps := Evicts(x, x, t, ev, 0, n);
  }

  /** The strict charge, up to the decision. */
  lemma ChargesStrict(s: State, t: nat, ins: Ins, n: nat) returns (a: nat, r: State, steps: nat, ok: bool)
    requires Shaped(s) && Owned(s) && s.size == Pow2(n) && t < |s.threads| && ins.e < |s.entries| && ins.strict
    requires ins.c <= ins.capacity
    ensures ChargedTo(s, r, steps, ins.c, ok)
    ensures EvictedFor(Slots(s), s.clock, steps, StrictNeed(s.usage, ins.c, ins.capacity, ins.needSlot))
    ensures ok <==> EnoughFreed(Slots(s), Slots(r), s.usage, ins.c, ins.capacity, ins.needSlot)
    ensures steps == 0 ==> Slots(r) == Slots(s)
    ensures Goes(SetPc(s, t, Insert(StrictCharge(ins))), t, a,
                 SetPc(r, t, if ok then Charged(ins, s.size) else Insert(StrictFail(ins))))
  {
    hide Goes, Moved, StopsAt, Owned, ChargedTo, Charged, Weight, Filled;
    var now := Min(ins.capacity, s.usage + ins.c);
    var need := s.usage + ins.c - now;
    var request := if ins.needSlot && need == 0 then 1 else need;
    var s0 := SetPc(s, t, Insert(StrictCharge(ins)));
    if request == 0 {
      r, steps, ok, a := s.(usage := now), 0, true, 1;
      ChargedNow(s, ins.c);
      assert Slots(r) == Slots(s);
      SetTwice(r, t, Insert(StrictCharge(ins)), Charged(ins, s.size));
      OneGo(s0, t);
    } else {
      var ev := Ev(ins, need, request, now - s.usage, 0, 0, 0, 0, 0);
      var x := s.(usage := now);
      SetTwice(x, t, Insert(StrictCharge(ins)), Evict(Hand(ev)));
      OneGo(s0, t);
      var b, m, ev2;
      b, m, ev2, steps := EvictsAndSettles(s, now, t, ev, n);
      MovedShape(x, m, s.clock, steps);
      MovedEntries(x, m, s.clock, steps);
      GoesThen(s0, t, 1, SetPc(x, t, Evict(Hand(ev))), b, SetPc(m, t, Evict(Done(ev2))));
      a, r, ok := Adjusts(s, m, t, ev2, now, steps, s0, 1 + b);
      StopsLate(Slots(s), s.clock, steps, request);
    }
  }

  lemma MovedEntries(s: State, m: State, p: nat, steps: nat)
    requires Moved(s, m, p, steps)
    ensures |m.entries| == |s.entries|
  {
  }

  lemma StopsLate(ss: seq<Slot>, p: nat, steps: nat, request: nat)
    requires |ss| > 0 && StopsAt(ss, p, steps, request)
    ensures steps >= 4
  {
  }

  /** What the strict charge makes of what was evicted. */
  lemma Adjusts(s: State, m: State, t: nat, ev: Ev, now: int, steps: nat, s0: State, b: nat)
    returns (a: nat, r: State, ok: bool)
    requires Shaped(s) && t < |s.threads| && ev.ins.strict && ev.ins.e < |s.entries| == |m.entries|
    requires now == Min(ev.ins.capacity, s.usage + ev.ins.c) && ev.need == s.usage + ev.ins.c - now
    requires ev.grabbed == now - s.usage && (ev.count == 0 ==> ev.freed == 0)
    requires var x := s.(usage := now);
      && Moved(x, m, s.clock, steps) && m.clock == s.clock + steps && m.threads == s.threads
      && ev.freed == FreedCharge(x, m) && ev.count == FreedCount(x, m)
    requires Goes(s0, t, b, SetPc(m, t, Evict(Done(ev))))
    ensures ChargedTo(s, r, steps, ev.ins.c, ok)
    ensures ok <==> EnoughFreed(Slots(s), Slots(r), s.usage, ev.ins.c, ev.ins.capacity, ev.ins.needSlot)
    ensures Goes(s0, t, a, SetPc(r, t, if ok then Charged(ev.ins, s.size) else Insert(StrictFail(ev.ins))))
  {
    hide Goes, Moved, ChargedTo, Charged, FreedCharge, FreedCount;
    var ins, x := ev.ins, s.(usage := now);
    MovedShape(x, m, s.clock, steps);
    var o := m.(occupancy := m.occupancy - ev.count);
    var adj := StrictAdjust(ins, ev.need, ev.grabbed, ev.freed, ev.count == 0);
    Settles(m, t, ev);
    GoesThen(s0, t, b, SetPc(m, t, Evict(Done(ev))), 1, SetPc(o, t, Insert(adj)));
    ok := !(ev.freed < ev.need || (ins.needSlot && ev.count == 0));
    r := m.(usage := s.usage + (if ok then ins.c else 0) - ev.freed, occupancy := s.occupancy - ev.count);
    var pc := if ok then Charged(ins, s.size) else Insert(StrictFail(ins));
    Adjusted(o, t, ins, ev.need, ev.grabbed, ev.freed, ev.count == 0);
    a := b + 2;
    GoesThen(s0, t, b + 1, SetPc(o, t, Insert(adj)), 1, SetPc(r, t, pc));
    ChargedThen(s, now, m, steps, ins.c, ok, r);
    FreedTogether(s, r);
  }

  lemma Settles(m: State, t: nat, ev: Ev)
    requires Shaped(m) && t < |m.threads| && ev.ins.strict
    ensures var adj := StrictAdjust(ev.ins, ev.need, ev.grabbed, ev.freed, ev.count == 0);
      Goes(SetPc(m, t, Evict(Done(ev))), t, 1, SetPc(m.(occupancy := m.occupancy - ev.count), t, Insert(adj)))
  {
    hide Goes;
    var adj := StrictAdjust(ev.ins, ev.need, ev.grabbed, ev.freed, ev.count == 0);
    SetTwice(m.(occupancy := m.occupancy - ev.count), t, Evict(Done(ev)), Insert(adj));
    OneGo(SetPc(m, t, Evict(Done(ev))), t);
  }

  lemma Adjusted(o: State, t: nat, ins: Ins, need: nat, grabbed: int, freed: nat, none: bool)
    requires Shaped(o) && t < |o.threads| && ins.e < |o.entries| && (none ==> freed == 0)
    ensures var ok := !(freed < need || (ins.needSlot && none));
      Goes(SetPc(o, t, Insert(StrictAdjust(ins, need, grabbed, freed, none))), t, 1,
           SetPc(o.(usage := o.usage - (if ok then freed - need else freed + grabbed)), t,
                 if ok then Charged(ins, o.size) else Insert(StrictFail(ins))))
  {
    hide Goes, Charged;
    var adj := Insert(StrictAdjust(ins, need, grabbed, freed, none));
    var ok := !(freed < need || (ins.needSlot && none));
    var r := o.(usage := o.usage - (if ok then freed - need else freed + grabbed));
    SetTwice(r, t, adj, if ok then Charged(ins, o.size) else Insert(StrictFail(ins)));
    OneGo(SetPc(o, t, adj), t);
  }

  /** Where nothing is freed no slot is, and where something is, one is. */
  lemma FreedTogether(s: State, r: State)
    requires Shaped(s) && Shaped(r)
    ensures FreedCharge(s, r) == Weight(Slots(s)) - Weight(Slots(r))
      && FreedCount(s, r) == Filled(Slots(s)) - Filled(Slots(r))
  {
  }

  /** The charge without strict limit. */
  lemma ChargesLoose(s: State, t: nat, ins: Ins, n: nat) returns (a: nat, r: State, steps: nat, ok: bool)
    requires Shaped(s) && Owned(s) && s.size == Pow2(n) && t < |s.threads| && ins.e < |s.entries| && !ins.strict
    ensures ChargedTo(s, r, steps, ins.c, ok)
    ensures EvictedFor(Slots(s), s.clock, steps, LooseNeed(s.usage, ins.c, ins.capacity, ins.needSlot))
    ensures ok <==> SlotFreed(Slots(s), Slots(r), ins.needSlot)
    ensures steps == 0 ==> Slots(r) == Slots(s)
    ensures Goes(SetPc(s, t, Insert(LooseLoad(ins))), t, a,
                 SetPc(r, t, if ok then Charged(ins, s.size) else Insert(LooseFail(ins))))
  {
    hide Goes, Moved, StopsAt, Owned, ChargedTo, Charged, Weight, Filled, LooseNeed;
    LooseNeedMeans(s.usage, ins.c, ins.capacity, ins.needSlot);
    var need := LooseNeed(s.usage, ins.c, ins.capacity, ins.needSlot);
    var s0 := SetPc(s, t, Insert(LooseLoad(ins)));
    if need == 0 {
      LoadsNothing(s, t, ins);
      AddsCharge(s, t, ins, 0);
      r, steps, ok, a := s.(usage := s.usage + ins.c), 0, true, 2;
      GoesThen(s0, t, 1, SetPc(s, t, Insert(LooseAdd(ins, 0))), 1, SetPc(r, t, Charged(ins, s.size)));
      ChargedNow(s, ins.c);
      assert Slots(r) == Slots(s);
    } else {
      var ev := Ev(ins, need, need, 0, 0, 0, 0, 0, 0);
      SetTwice(s, t, Insert(LooseLoad(ins)), Evict(Hand(ev)));
      LoadsNeed(s, t, ins);
      assert s.(usage := s.usage) == s;
      var b, m, ev2;
      b, m, ev2, steps := EvictsAndSettles(s, s.usage, t, ev, n);
      MovedShape(s, m, s.clock, steps);
      MovedEntries(s, m, s.clock, steps);
      GoesThen(s0, t, 1, SetPc(s, t, Evict(Hand(ev))), b, SetPc(m, t, Evict(Done(ev2))));
      a, r, ok := AdjustsLoose(s, m, t, ev2, steps, s0, 1 + b);
      StopsLate(Slots(s), s.clock, steps, need);
    }
  }

  lemma LoadsNothing(s: State, t: nat, ins: Ins)
    requires Shaped(s) && t < |s.threads| && ins.e < |s.entries|
    requires LooseNeed(s.usage, ins.c, ins.capacity, ins.needSlot) == 0
    ensures Goes(SetPc(s, t, Insert(LooseLoad(ins))), t, 1, SetPc(s, t, Insert(LooseAdd(ins, 0))))
  {
    hide Goes, LooseNeed;
    SetTwice(s, t, Insert(LooseLoad(ins)), Insert(LooseAdd(ins, 0)));
    OneGo(SetPc(s, t, Insert(LooseLoad(ins))), t);
  }

  lemma LoadsNeed(s: State, t: nat, ins: Ins)
    requires Shaped(s) && t < |s.threads| && ins.e < |s.entries|
    requires LooseNeed(s.usage, ins.c, ins.capacity, ins.needSlot) > 0
    ensures var need := LooseNeed(s.usage, ins.c, ins.capacity, ins.needSlot);
      Goes(SetPc(s, t, Insert(LooseLoad(ins))), t, 1, SetPc(s, t, Evict(Hand(Ev(ins, need, need, 0, 0, 0, 0, 0, 0)))))
  {
    hide Goes, LooseNeed;
    var need := LooseNeed(s.usage, ins.c, ins.capacity, ins.needSlot);
    SetTwice(s, t, Insert(LooseLoad(ins)), Evict(Hand(Ev(ins, need, need, 0, 0, 0, 0, 0, 0))));
    OneGo(SetPc(s, t, Insert(LooseLoad(ins))), t);
  }

  lemma AddsCharge(s: State, t: nat, ins: Ins, freed: nat)
    requires Shaped(s) && t < |s.threads| && ins.e < |s.entries|
    ensures Goes(SetPc(s, t, Insert(LooseAdd(ins, freed))), t, 1,
                 SetPc(s.(usage := s.usage + ins.c - freed), t, Charged(ins, s.size)))
  {
    hide Goes, Charged;
    SetTwice(s.(usage := s.usage + ins.c - freed), t, Insert(LooseAdd(ins, freed)), Charged(ins, s.size));
    OneGo(SetPc(s, t, Insert(LooseAdd(ins, freed))), t);
  }

  lemma SettlesLoose(m: State, t: nat, ev: Ev)
    requires Shaped(m) && t < |m.threads| && !ev.ins.strict
    ensures var fails := ev.ins.needSlot && ev.count == 0;
      Goes(SetPc(m, t, Evict(Done(ev))), t, 1,
           SetPc(m.(occupancy := m.occupancy - ev.count), t,
                 Insert(if fails then LooseFail(ev.ins) else LooseAdd(ev.ins, ev.freed))))
  {
    hide Goes;
    var pc := Insert(if ev.ins.needSlot && ev.count == 0 then LooseFail(ev.ins) else LooseAdd(ev.ins, ev.freed));
    SetTwice(m.(occupancy := m.occupancy - ev.count), t, Evict(Done(ev)), pc);
    OneGo(SetPc(m, t, Evict(Done(ev))), t);
  }

  lemma AdjustsLoose(s: State, m: State, t: nat, ev: Ev, steps: nat, s0: State, b: nat)
    returns (a: nat, r: State, ok: bool)
    requires Shaped(s) && t < |s.threads| && !ev.ins.strict && ev.ins.e < |s.entries| == |m.entries|
    requires Moved(s, m, s.clock, steps) && m.clock == s.clock + steps && m.threads == s.threads
    requires Shaped(m) && ev.freed == FreedCharge(s, m) && ev.count == FreedCount(s, m)
      && (ev.count == 0 ==> ev.freed == 0)
    requires Goes(s0, t, b, SetPc(m, t, Evict(Done(ev))))
    ensures ChargedTo(s, r, steps, ev.ins.c, ok)
    ensures ok <==> SlotFreed(Slots(s), Slots(r), ev.ins.needSlot)
    ensures Goes(s0, t, a, SetPc(r, t, if ok then Charged(ev.ins, s.size) else Insert(LooseFail(ev.ins))))
  {
    hide Goes, Moved, ChargedTo, Charged, FreedCharge, FreedCount;
    var ins := ev.ins;
    MovedShape(s, m, s.clock, steps);
    var o := m.(occupancy := m.occupancy - ev.count);
    ok := !(ins.needSlot && ev.count == 0);
    r := m.(usage := s.usage + (if ok then ins.c else 0) - ev.freed, occupancy := s.occupancy - ev.count);
    SettlesLoose(m, t, ev);
    if ok {
      AddsCharge(o, t, ins, ev.freed);
      GoesThen(s0, t, b, SetPc(m, t, Evict(Done(ev))), 1, SetPc(o, t, Insert(LooseAdd(ins, ev.freed))));
      GoesThen(s0, t, b + 1, SetPc(o, t, Insert(LooseAdd(ins, ev.freed))), 1, SetPc(r, t, Charged(ins, s.size)));
      a := b + 2;
    } else {
      assert r == o;
      GoesThen(s0, t, b, SetPc(m, t, Evict(Done(ev))), 1, SetPc(o, t, Insert(LooseFail(ins))));
      a := b + 1;
    }
    assert s.(usage := s.usage) == s;
    ChargedThen(s, s.usage, m, steps, ins.c, ok, r);
    FreedTogether(s, r);
  }

  // ---------------------------------------------------------------- looking for a slot

  /** A displacement is counted on each of the first p slots of k's path. */
  ghost function Pushed(hs: seq<Handle>, k: Key, p: nat, n: nat): (rs: seq<Handle>)
    ensures |rs| == |hs|
  {
    seq(|hs|, g requires 0 <= g < |hs| =>
      if g < Pow2(n) && Turn(k, g, n) < p then hs[g].(disp := hs[g].disp + 1) else hs[g])
  }

  lemma PushedNone(hs: seq<Handle>, k: Key, n: nat)
    ensures Pushed(hs, k, 0, n) == hs
  {
  }

  lemma PushedMore(hs: seq<Handle>, k: Key, p: nat, n: nat)
    requires p < Pow2(n) <= |hs|
    ensures var h, ps := Probe(k, p, Pow2(n)), Pushed(hs, k, p, n);
      ps[h := ps[h].(disp := ps[h].disp + 1)] == Pushed(hs, k, p + 1, n) && ps[h] == hs[h]
  {
    hide Turn, Probe;
    var h, ps, rs := Probe(k, p, Pow2(n)), Pushed(hs, k, p, n), Pushed(hs, k, p + 1, n);
    TurnOfProbe(k, p, n);
    var qs := ps[h := ps[h].(disp := ps[h].disp + 1)];
    forall g | 0 <= g < |hs| ensures qs[g] == rs[g] {
      if g < Pow2(n) && g != h && Turn(k, g, n) == p { SameTurn(k, g, h, n); }
    }
  }

  /** What a rollback takes back is what was counted. */
  lemma PushedBack(hs: seq<Handle>, k: Key, h: nat, n: nat, x: Handle)
    requires h < Pow2(n) <= |hs| && x.disp == hs[h].disp
    ensures Rolled.Lowered(Pushed(hs, k, Turn(k, h, n), n)[h := x], k, First(k, Pow2(n)), h, n) == hs[h := x]
  {
    hide Turn, First;
    FirstTurn(k, n);
    var a := Rolled.Lowered(Pushed(hs, k, Turn(k, h, n), n)[h := x], k, First(k, Pow2(n)), h, n);
    forall g | 0 <= g < |hs| ensures a[g] == hs[h := x][g] {}
  }

  /** A visible entry for the key. */
  predicate Matching(s: State, h: nat, k: Key) {
    h < |s.handles| && s.handles[h].meta.st.Visible? && KeyIn(s, h, k)
  }

  /** The slot refuses the insertion: a displacement is next. */
  lemma Refuses(s: State, t: nat, ins: Ins, p: nat, h: nat) returns (a: nat)
    requires Shaped(s) && t < |s.threads| && h < s.size && ins.e < |s.entries|
    requires !s.handles[h].meta.st.Empty? && !Matching(s, h, ins.key)
    ensures Goes(SetPc(s, t, Insert(Claim(ins, p, h))), t, a, SetPc(s, t, Insert(Displace(ins, p, h))))
  {
    hide Goes;
    var s0 := SetPc(s, t, Insert(Claim(ins, p, h)));
    if s.handles[h].meta.st.Visible? {
      var x := AddRef(s, h, ins.countdown);
      var s1, s2 := SetPc(s, t, Insert(Boost(ins, p, h))), SetPc(x, t, Insert(Match(ins, p, h)));
      SetTwice(s, t, Insert(Claim(ins, p, h)), Insert(Boost(ins, p, h)));
      OneGo(s0, t);
      SetTwice(x, t, Insert(Boost(ins, p, h)), Insert(Match(ins, p, h)));
      OneGo(s1, t);
      GoesThen(s0, t, 1, s1, 1, s2);
      Find.AddRefBack(s, h, ins.countdown);
      SetTwice(s, t, Insert(Match(ins, p, h)), Insert(Displace(ins, p, h)));
      UndoesBoost(s, t, ins, p, h);
      GoesThen(s0, t, 2, s2, 1, SetPc(s, t, Insert(Displace(ins, p, h))));
      a := 3;
    } else {
      SetTwice(s, t, Insert(Claim(ins, p, h)), Insert(Displace(ins, p, h)));
      OneGo(s0, t);
      a := 1;
    }
  }

  lemma UndoesBoost(s: State, t: nat, ins: Ins, p: nat, h: nat)
    requires Shaped(s) && t < |s.threads| && h < s.size && ins.e < |s.entries| && !KeyIn(s, h, ins.key)
    ensures Goes(SetPc(AddRef(s, h, ins.countdown), t, Insert(Match(ins, p, h))), t, 1,
                 SetPc(s, t, Insert(Displace(ins, p, h))))
  {
    hide Goes;
    var x := AddRef(s, h, ins.countdown);
    Find.AddRefBack(s, h, ins.countdown);
    SetTwice(s, t, Insert(Match(ins, p, h)), Insert(Displace(ins, p, h)));
    OneGo(SetPc(x, t, Insert(Match(ins, p, h))), t);
  }

  /** On to the next slot. */
  lemma Displaces(s: State, t: nat, ins: Ins, p: nat, n: nat)
    requires Shaped(s) && s.size == Pow2(n) && t < |s.threads| && p + 1 < s.size && ins.e < |s.entries|
    ensures var k := ins.key;
      Goes(SetPc(s.(handles := Pushed(s.handles, k, p, n)), t, Insert(Displace(ins, p, Probe(k, p, s.size)))), t, 1,
           SetPc(s.(handles := Pushed(s.handles, k, p + 1, n)), t, Insert(Claim(ins, p + 1, Probe(k, p + 1, s.size)))))
  {
    hide Goes, Probe, Advance, Pushed, Pow2;
    var k := ins.key;
    var h := Probe(k, p, s.size);
    PushedMore(s.handles, k, p, n);
    AdvanceIsNextProbe(k, p, s.size);
    var a, b := s.(handles := Pushed(s.handles, k, p, n)), s.(handles := Pushed(s.handles, k, p + 1, n));
    SetTwice(b, t, Insert(Displace(ins, p, h)), Insert(Claim(ins, p + 1, Probe(k, p + 1, s.size))));
    OneGo(SetPc(a, t, Insert(Displace(ins, p, h))), t);
  }

  /** The slot of the p-th probe takes the entry, or holds one for the key. */
  predicate Fits(s: State, k: Key, p: nat)
    requires s.size > 0
  {
    var h := Probe(k, p, s.size);
    h < |s.handles| && (s.handles[h].meta.st.Empty? || Matching(s, h, k))
  }

  lemma SamePushed(s: State, k: Key, p: nat, n: nat, h: nat)
    requires Shaped(s) && s.size == Pow2(n) && h < s.size
    ensures var m := s.(handles := Pushed(s.handles, k, p, n));
      && m.handles[h] == s.handles[h].(disp := m.handles[h].disp)
      && (Matching(m, h, k) <==> Matching(s, h, k))
  {
    hide Turn;
  }

  /** The search comes to the first slot that fits. */
  lemma {:induction false} Seeks(s: State, t: nat, ins: Ins, p: nat, q: nat, n: nat) returns (a: nat)
    requires Shaped(s) && s.size == Pow2(n) && t < |s.threads| && p <= q < s.size && ins.e < |s.entries|
    requires forall x: nat :: p <= x < q ==> !Fits(s, ins.key, x)
    ensures var k := ins.key;
      Goes(SetPc(s.(handles := Pushed(s.handles, k, p, n)), t, Insert(Claim(ins, p, Probe(k, p, s.size)))), t, a,
           SetPc(s.(handles := Pushed(s.handles, k, q, n)), t, Insert(Claim(ins, q, Probe(k, q, s.size)))))
    decreases q - p
  {
    hide Goes, Probe, Pushed, Matching;
    var k := ins.key;
    var m := s.(handles := Pushed(s.handles, k, p, n));
    var h := Probe(k, p, s.size);
    var s0 := SetPc(m, t, Insert(Claim(ins, p, h)));
    if p == q {
      NoGo(s0, t);
      a := 0;
    } else {
      assert !Fits(s, k, p);
      SamePushed(s, k, p, n, h);
      var b := Refuses(m, t, ins, p, h);
      Displaces(s, t, ins, p, n);
      var m2 := s.(handles := Pushed(s.handles, k, p + 1, n));
      var s1, s2 := SetPc(m, t, Insert(Displace(ins, p, h))),
        SetPc(m2, t, Insert(Claim(ins, p + 1, Probe(k, p + 1, s.size))));
      GoesThen(s0, t, b, s1, 1, s2);
      var c := Seeks(s, t, ins, p + 1, q, n);
      var m3 := s.(handles := Pushed(s.handles, k, q, n));
      GoesThen(s0, t, b + 1, s2, c, SetPc(m3, t, Insert(Claim(ins, q, Probe(k, q, s.size)))));
      a := b + 1 + c;
    }
  }

  // ---------------------------------------------------------------- the slot is empty

  /** The entry is in slot h, visible; the caller has a reference if they want one. */
  function Stored(s: State, h: nat, ins: Ins): State
    requires h < |s.handles| && ins.e < |s.entries|
  {
    var got := if ins.wantsHandle then 1 else 0;
    var x := Handle(Meta(Visible, ins.countdown, ins.countdown - got), ins.e, s.handles[h].disp);
    SetLoc(s.(handles := s.handles[h := x]), ins.e, InHandle(h)).(
      users := if ins.wantsHandle then s.users + multiset{(h, ins.e)} else s.users)
  }

  lemma Stores(s: State, t: nat, ins: Ins, p: nat, h: nat)
    requires Shaped(s) && t < |s.threads| && h < s.size && ins.e < |s.entries| && s.handles[h].meta.st.Empty?
    ensures Goes(SetPc(s, t, Insert(Claim(ins, p, h))), t, 3, SetPc(Stored(s, h, ins), t, Idle))
  {
    hide Goes;
    var a := SetMeta(s, h, s.handles[h].meta.(st := Construction));
    var b := a.(handles := a.handles[h := a.handles[h].(entry := ins.e)]);
    var s0, s1 := SetPc(s, t, Insert(Claim(ins, p, h))), SetPc(a, t, Insert(Write(ins, p, h)));
    var s2 := SetPc(b, t, Insert(Publish(ins, p, h)));
    SetTwice(a, t, Insert(Claim(ins, p, h)), Insert(Write(ins, p, h)));
    OneGo(s0, t);
    SetTwice(b, t, Insert(Write(ins, p, h)), Insert(Publish(ins, p, h)));
    OneGo(s1, t);
    GoesThen(s0, t, 1, s1, 1, s2);
    PublishesTo(s, t, ins, p, h);
    GoesThen(s0, t, 2, s2, 1, SetPc(Stored(s, h, ins), t, Idle));
  }

  lemma PublishesTo(s: State, t: nat, ins: Ins, p: nat, h: nat)
    requires Shaped(s) && t < |s.threads| && h < s.size && ins.e < |s.entries|
    ensures var a := SetMeta(s, h, s.handles[h].meta.(st := Construction));
      var b := a.(handles := a.handles[h := a.handles[h].(entry := ins.e)]);
      Goes(SetPc(b, t, Insert(Publish(ins, p, h))), t, 1, SetPc(Stored(s, h, ins), t, Idle))
  {
    hide Goes;
    var a := SetMeta(s, h, s.handles[h].meta.(st := Construction));
    var b := a.(handles := a.handles[h := a.handles[h].(entry := ins.e)]);
    var r := Stored(s, h, ins);
    var got := if ins.wantsHandle then 1 else 0;
    assert SetMeta(b, h, Meta(Visible, ins.countdown, ins.countdown - got)).handles == r.handles;
    SetTwice(r, t, Insert(Publish(ins, p, h)), Idle);
    OneGo(SetPc(b, t, Insert(Publish(ins, p, h))), t);
  }

  // ---------------------------------------------------------------- an entry for the key is there

  lemma Boosts(s: State, t: nat, ins: Ins, p: nat, h: nat)
    requires Shaped(s) && t < |s.threads| && h < s.size && ins.e < |s.entries| && Matching(s, h, ins.key)
    ensures var m := s.handles[h].meta;
      var x := SetMeta(s, h, Meta(m.st, m.acq + ins.countdown, m.rel + ins.countdown));
      Goes(SetPc(s, t, Insert(Claim(ins, p, h))), t, 3, SetPc(x, t, Insert(Back(ins, h, First(ins.key, s.size)))))
  {
    hide Goes, First;
    var m := s.handles[h].meta;
    var x := SetMeta(s, h, Meta(m.st, m.acq + ins.countdown, m.rel + ins.countdown));
    var a := AddRef(s, h, ins.countdown);
    var s0, s1 := SetPc(s, t, Insert(Claim(ins, p, h))), SetPc(s, t, Insert(Boost(ins, p, h)));
    var s2 := SetPc(a, t, Insert(Match(ins, p, h)));
    SetTwice(s, t, Insert(Claim(ins, p, h)), Insert(Boost(ins, p, h)));
    OneGo(s0, t);
    SetTwice(a, t, Insert(Boost(ins, p, h)), Insert(Match(ins, p, h)));
    OneGo(s1, t);
    GoesThen(s0, t, 1, s1, 1, s2);
    assert SetMeta(a, h, Meta(m.st, m.acq + ins.countdown, m.rel + ins.countdown)).handles == x.handles;
    SetTwice(x, t, Insert(Match(ins, p, h)), Insert(Back(ins, h, First(ins.key, s.size))));
    OneGo(s2, t);
    GoesThen(s0, t, 2, s2, 1, SetPc(x, t, Insert(Back(ins, h, First(ins.key, s.size)))));
  }

  /** The displacements are taken back, and the slot that was counted is given up. */
  lemma {:induction false} BacksOff(s: State, t: nat, ins: Ins, h: nat, cur: nat, n: nat) returns (a: nat)
    requires Shaped(s) && s.size == Pow2(n) && t < |s.threads| && h < s.size && cur < s.size && ins.e < |s.entries|
    requires Turn(ins.key, cur, n) <= Turn(ins.key, h, n)
    ensures Goes(SetPc(s, t, Insert(Back(ins, h, cur))), t, a,
                 SetPc(s.(handles := Rolled.Lowered(s.handles, ins.key, cur, h, n), occupancy := s.occupancy - 1), t,
                       Insert(if ins.wantsHandle then Alone(ins) else Uncharge(ins))))
    decreases Turn(ins.key, h, n) - Turn(ins.key, cur, n)
  {
    hide Goes, Turn, Advance, Rolled.Lowered, Pow2;
    var k := ins.key;
    var s0 := SetPc(s, t, Insert(Back(ins, h, cur)));
    var last := Insert(if ins.wantsHandle then Alone(ins) else Uncharge(ins));
    if cur == h {
      Rolled.LoweredNone(s.handles, k, h, n);
      SetTwice(s.(occupancy := s.occupancy - 1), t, Insert(Back(ins, h, cur)), last);
      OneGo(s0, t);
      a := 1;
    } else {
      if Turn(k, cur, n) == Turn(k, h, n) { SameTurn(k, cur, h, n); }
      Rolled.LoweredMore(s.handles, k, cur, h, n);
      var next, m := Advance(k, cur, Pow2(n)), AddDisp(s, cur, -1);
      SetTwice(m, t, Insert(Back(ins, h, cur)), Insert(Back(ins, h, next)));
      OneGo(s0, t);
      var b := BacksOff(m, t, ins, h, next, n);
      var r := s.(handles := Rolled.Lowered(s.handles, k, cur, h, n), occupancy := s.occupancy - 1);
      GoesThen(s0, t, 1, SetPc(m, t, Insert(Back(ins, h, next))), b, SetPc(r, t, last));
      a := 1 + b;
    }
  }

  // ---------------------------------------------------------------- the ends

  /** The entry is in a standalone handle, which the caller references. */
  function StoodAlone(s: State, ins: Ins): State
    requires ins.e < |s.entries|
  {
    SetLoc(s, ins.e, InHandle(|s.handles|)).(handles := s.handles + [Handle(Meta(Invisible, 1, 0), ins.e, 0)],
                                             users := s.users + multiset{(|s.handles|, ins.e)})
  }

  lemma StandsAlone(s: State, t: nat, ins: Ins)
    requires Shaped(s) && t < |s.threads| && ins.e < |s.entries|
    ensures Goes(SetPc(s, t, Insert(Alone(ins))), t, 1, SetPc(StoodAlone(s, ins), t, Idle))
  {
    hide Goes;
    SetTwice(StoodAlone(s, ins), t, Insert(Alone(ins)), Idle);
    OneGo(SetPc(s, t, Insert(Alone(ins))), t);
  }

  lemma Drops(s: State, t: nat, ins: Ins)
    requires Shaped(s) && t < |s.threads| && ins.e < |s.entries|
    ensures Goes(SetPc(s, t, Insert(DropProto(ins))), t, 1, SetPc(DisposeOf(s, ins.e), t, Idle))
  {
    hide Goes;
    SetTwice(DisposeOf(s, ins.e), t, Insert(DropProto(ins)), Idle);
    OneGo(SetPc(s, t, Insert(DropProto(ins))), t);
  }

  lemma Uncharges(s: State, t: nat, ins: Ins)
    requires Shaped(s) && t < |s.threads| && ins.e < |s.entries|
    ensures Goes(SetPc(s, t, Insert(Uncharge(ins))), t, 2,
                 SetPc(DisposeOf(s.(usage := s.usage - ins.c), ins.e), t, Idle))
  {
    hide Goes;
    var x := s.(usage := s.usage - ins.c);
    SetTwice(x, t, Insert(Uncharge(ins)), Insert(DropProto(ins)));
    OneGo(SetPc(s, t, Insert(Uncharge(ins))), t);
    Drops(x, t, ins);
    GoesThen(SetPc(s, t, Insert(Uncharge(ins))), t, 1, SetPc(x, t, Insert(DropProto(ins))), 1,
             SetPc(DisposeOf(x, ins.e), t, Idle));
  }

  lemma Forces(s: State, t: nat, ins: Ins)
    requires Shaped(s) && t < |s.threads| && ins.e < |s.entries| && ins.wantsHandle
    ensures var x := s.(occupancy := s.occupancy - 1, usage := s.usage + ins.c);
      Goes(SetPc(s, t, Insert(LooseFail(ins))), t, 3, SetPc(StoodAlone(x, ins), t, Idle))
  {
    hide Goes;
    var o := s.(occupancy := s.occupancy - 1);
    var x := o.(usage := s.usage + ins.c);
    var s0, s1, s2 := SetPc(s, t, Insert(LooseFail(ins))), SetPc(o, t, Insert(LooseForce(ins))),
      SetPc(x, t, Insert(Alone(ins)));
    SetTwice(o, t, Insert(LooseFail(ins)), Insert(LooseForce(ins)));
    OneGo(s0, t);
    SetTwice(x, t, Insert(LooseForce(ins)), Insert(Alone(ins)));
    OneGo(s1, t);
    GoesThen(s0, t, 1, s1, 1, s2);
    StandsAlone(x, t, ins);
    GoesThen(s0, t, 2, s2, 1, SetPc(StoodAlone(x, ins), t, Idle));
  }

  lemma GivesUpLoose(s: State, t: nat, ins: Ins)
    requires Shaped(s) && t < |s.threads| && ins.e < |s.entries| && !ins.wantsHandle
    ensures var x := s.(occupancy := s.occupancy - 1);
      Goes(SetPc(s, t, Insert(LooseFail(ins))), t, 2, SetPc(DisposeOf(x, ins.e), t, Idle))
  {
    hide Goes;
    var x := s.(occupancy := s.occupancy - 1);
    var s0, s1 := SetPc(s, t, Insert(LooseFail(ins))), SetPc(x, t, Insert(DropProto(ins)));
    SetTwice(x, t, Insert(LooseFail(ins)), Insert(DropProto(ins)));
    OneGo(s0, t);
    Drops(x, t, ins);
    GoesThen(s0, t, 1, s1, 1, SetPc(DisposeOf(x, ins.e), t, Idle));
  }

  lemma FailsStrict(s: State, t: nat, ins: Ins)
    requires Shaped(s) && t < |s.threads| && ins.e < |s.entries| && ins.table
    ensures Goes(SetPc(s, t, Insert(StrictFail(ins))), t, 1,
                 SetPc(SetLoc(s, ins.e, Returned).(occupancy := s.occupancy - 1), t, Idle))
  {
    hide Goes;
    SetTwice(SetLoc(s, ins.e, Returned).(occupancy := s.occupancy - 1), t, Insert(StrictFail(ins)), Idle);
    OneGo(SetPc(s, t, Insert(StrictFail(ins))), t);
  }

  // ---------------------------------------------------------------- where the entry goes

  /** While an insertion looks for a slot, one is empty. */
  lemma SomeEmptySlot(trace: seq<State>, steps: seq<Step>, j: nat, t: nat, k: nat) returns (h: nat)
    requires Run(trace, steps) && j < |trace| && trace[0].size == Pow2(k) && trace[0].occLimit < Pow2(k)
    requires t < |trace[j].threads| && trace[j].threads[t].Insert? && trace[j].threads[t].n.Claim?
    ensures h < trace[j].size <= |trace[j].handles| && trace[j].handles[h].meta.st.Empty?
  {
    hide ClockRoom.Fulls;
    var s := trace[j];
    ClockRoom.RunSame(trace, steps, j);
    ClockRoom.RoomLeft(trace, steps, j);
    ClockOwnership.RunInv(trace, steps, j);
    InvShaped(s);
    ClockRoom.BusyUnderway(s.threads[t]);
    SumMember(ClockRoom.Seekers(s.threads), t);
    if forall g: nat :: g < s.size ==> ClockRoom.Full(s, g) {
      ClockRoom.AllFull(s, s.size);
      assert false;
    }
    h :| h < s.size && !ClockRoom.Full(s, h);
  }

  lemma FirstFits(s: State, k: Key, q: nat) returns (p: nat)
    requires s.size > 0 && Fits(s, k, q)
    ensures p <= q && Fits(s, k, p) && forall x: nat :: x < p ==> !Fits(s, k, x)
  {
    hide Fits;
    p := 0;
    while !Fits(s, k, p)
      invariant p <= q && forall x: nat :: x < p ==> !Fits(s, k, x)
      decreases q - p
    {
      p := p + 1;
    }
  }

  lemma MatchingIsMatch(s: State, h: nat, k: Key)
    requires Shaped(s) && Owned(s) && h < s.size
    ensures Matching(s, h, k) <==> Matches(Slots(s)[h], k)
  {
  }

  lemma FirstFitIs(s: State, k: Key, p: nat, n: nat)
    requires Shaped(s) && Owned(s) && s.size == Pow2(n) && p < s.size && forall x: nat :: x < p ==> !Fits(s, k, x)
    ensures FirstFit(Slots(s), k, Probe(k, p, s.size), n)
  {
    hide Probe, Turn, Owned;
    var h := Probe(k, p, s.size);
    TurnOfProbe(k, p, n);
    forall j: nat | j < s.size && Turn(k, j, n) < Turn(k, h, n)
      ensures !Slots(s)[j].meta.st.Empty? && !Matches(Slots(s)[j], k)
    {
      Find.ProbeOfTurn(k, j, n);
      assert !Fits(s, k, Turn(k, j, n));
      MatchingIsMatch(s, j, k);
    }
  }

  /** The entry that the insertion brings. */
  predicate Brings(s: State, t: nat, ins: Ins) {
    ins.e < |s.entries| && s.entries[ins.e].key == ins.key && s.entries[ins.e].charge == ins.c
  }

  function NewSlot(ins: Ins): Slot {
    Slot(Meta(Visible, ins.countdown, ins.countdown - if ins.wantsHandle then 1 else 0), ins.key, ins.c, 0)
  }

  lemma StoredPuts(s: State, t: nat, ins: Ins, p: nat, n: nat)
    requires Shaped(s) && s.size == Pow2(n) && p < s.size && Brings(s, t, ins)
    requires s.handles[Probe(ins.key, p, s.size)].meta.st.Empty?
    ensures var k, h := ins.key, Probe(ins.key, p, s.size);
      var r := Stored(s.(handles := Pushed(s.handles, k, p, n)), h, ins);
      Shaped(r) && r.threads == s.threads && PutAt(Slots(s), Slots(r), h, NewSlot(ins))
  {
    hide Probe, Turn;
    var k, h := ins.key, Probe(ins.key, p, s.size);
    var m := s.(handles := Pushed(s.handles, k, p, n));
    var r := Stored(m, h, ins);
    forall j: nat | j < s.size && j != h ensures Slots(r)[j] == Slots(s)[j].(disp := Slots(r)[j].disp) {
      assert m.handles[j] == s.handles[j].(disp := m.handles[j].disp);
    }
  }

  /** A charged insertion goes into the first slot of its path that is empty, unless an entry for the key comes first:
      then that one is boosted and the insertion takes back what it did. */
  lemma Places(s: State, t: nat, ins: Ins, n: nat, q: nat) returns (a: nat, r: State, h: nat, hit: bool)
    requires Shaped(s) && Owned(s) && s.size == Pow2(n) && t < |s.threads| && Brings(s, t, ins) && ins.table
    requires q < s.size && Fits(s, ins.key, q)
    ensures Shaped(r) && r.threads == s.threads && h < s.size && FirstFit(Slots(s), ins.key, h, n)
    ensures |r.handles| == |s.handles| && |r.entries| == |s.entries| && r.clock == s.clock
    ensures !hit ==> PutAt(Slots(s), Slots(r), h, NewSlot(ins))
    ensures !hit ==> r.entries == s.entries[ins.e := s.entries[ins.e].(loc := InHandle(h))]
    ensures !hit ==> r.users == if ins.wantsHandle then s.users + multiset{(h, ins.e)} else s.users
    ensures !hit ==> r.usage == s.usage && r.occupancy == s.occupancy
    ensures hit ==> BoostedAt(Slots(s), Slots(r), h, ins.key, ins.countdown)
    ensures hit ==> r.entries == s.entries && r.users == s.users
    ensures hit ==> r == s.(handles := r.handles, occupancy := s.occupancy - 1)
    ensures Goes(SetPc(s, t, Charged(ins, s.size)), t, a,
                 SetPc(r, t, if !hit then Idle else Insert(if ins.wantsHandle then Alone(ins) else Uncharge(ins))))
  {
    hide Goes, Probe, Pushed, Matching, Turn, Owned, Fits, FirstFit, PutAt, Rolled.Lowered;
    var k := ins.key;
    var p := FirstFits(s, k, q);
    h := Probe(k, p, s.size);
    FirstFitIs(s, k, p, n);
    Find.AtZeroth(k, s.size);
    PushedNone(s.handles, k, n);
    var b := Seeks(s, t, ins, 0, p, n);
    var m := s.(handles := Pushed(s.handles, k, p, n));
    SamePushed(s, k, p, n, h);
    FitsOpen(s, k, p);
    var s0, s1 := SetPc(s, t, Charged(ins, s.size)), SetPc(m, t, Insert(Claim(ins, p, h)));
    assert s.(handles := s.handles) == s;
    hit := !s.handles[h].meta.st.Empty?;
    if !hit {
      StoredPuts(s, t, ins, p, n);
      r := Stored(m, h, ins);
      Stores(m, t, ins, p, h);
      GoesThen(s0, t, b, s1, 3, SetPc(r, t, Idle));
      a := b + 3;
    } else {
      var c;
      c, r := BoostsAndBacksOff(s, t, ins, p, h, n);
      GoesThen(s0, t, b, s1, c, SetPc(r, t, Insert(if ins.wantsHandle then Alone(ins) else Uncharge(ins))));
      a := b + c;
      BoostedSlots(s, r, h, ins);
    }
  }

  lemma FitsOpen(s: State, k: Key, p: nat)
    requires s.size > 0 && Fits(s, k, p)
    ensures var h := Probe(k, p, s.size); h < |s.handles| && (s.handles[h].meta.st.Empty? || Matching(s, h, k))
  {
  }

  lemma BoostsAndBacksOff(s: State, t: nat, ins: Ins, p: nat, h: nat, n: nat) returns (a: nat, r: State)
    requires Shaped(s) && s.size == Pow2(n) && t < |s.threads| && ins.e < |s.entries| && p < s.size
    requires h == Probe(ins.key, p, s.size) && Matching(s, h, ins.key)
    ensures var x := s.handles[h];
      var y := x.(meta := Meta(x.meta.st, x.meta.acq + ins.countdown, x.meta.rel + ins.countdown));
      r == s.(handles := s.handles[h := y], occupancy := s.occupancy - 1)
    ensures Goes(SetPc(s.(handles := Pushed(s.handles, ins.key, p, n)), t, Insert(Claim(ins, p, h))), t, a,
                 SetPc(r, t, Insert(if ins.wantsHandle then Alone(ins) else Uncharge(ins))))
  {
    hide Goes, Probe, Pushed, Turn, First, Rolled.Lowered, Matching;
    var k := ins.key;
    var m := s.(handles := Pushed(s.handles, k, p, n));
    TurnOfProbe(k, p, n);
    if p > 0 { PushedMore(s.handles, k, p, n); } else { PushedNone(s.handles, k, n); }
    SamePushed(s, k, p, n, h);
    PushedMore(s.handles, k, p, n);
    var x := s.handles[h];
    var y := x.(meta := Meta(x.meta.st, x.meta.acq + ins.countdown, x.meta.rel + ins.countdown));
    var b := m.(handles := m.handles[h := y]);
    Boosts(m, t, ins, p, h);
    FirstTurn(k, n);
    var c := BacksOff(b, t, ins, h, First(k, s.size), n);
    PushedBack(s.handles, k, h, n, y);
    r := s.(handles := s.handles[h := y], occupancy := s.occupancy - 1);
    GoesThen(SetPc(m, t, Insert(Claim(ins, p, h))), t, 3, SetPc(b, t, Insert(Back(ins, h, First(k, s.size)))), c,
             SetPc(r, t, Insert(if ins.wantsHandle then Alone(ins) else Uncharge(ins))));
    a := 3 + c;
  }

  lemma BoostedSlots(s: State, r: State, h: nat, ins: Ins)
    requires Shaped(s) && Owned(s) && h < s.size && Matching(s, h, ins.key)
    requires var x := s.handles[h];
      var y := x.(meta := Meta(x.meta.st, x.meta.acq + ins.countdown, x.meta.rel + ins.countdown));
      r == s.(handles := s.handles[h := y], occupancy := s.occupancy - 1)
    ensures BoostedAt(Slots(s), Slots(r), h, ins.key, ins.countdown)
  {
    MatchingIsMatch(s, h, ins.key);
    assert Slots(r) == Slots(s)[h := Boosted(Slots(s)[h], ins.countdown)];
  }

  // ---------------------------------------------------------------- Insert

  /** The caller's entry once the call is over, and their references. */
  predicate Handed(s: State, r: State, ins: Ins, loc: Loc, users: multiset<(nat, nat)>) {
    && ins.e < |r.entries| && r.entries[ins.e].key == ins.key && r.entries[ins.e].loc == loc
    && r.entries[ins.e].disposals == B(loc.Gone?) && r.users == s.users + users
  }

  /** What the insertion comes to, given the table after the evictions and whether the entry was charged. */
  ghost predicate Outcome(s: State, mid: seq<Slot>, r: State, ins: Ins, charged: bool, res: InsertResult, n: nat) {
    && Shaped(r)
    && match res
       case Failed => !charged && ins.strict && Slots(r) == mid && Handed(s, r, ins, Returned, multiset{})
       case InTable(h) =>
         && charged && FirstFit(mid, ins.key, h, n) && PutAt(mid, Slots(r), h, NewSlot(ins))
         && Handed(s, r, ins, InHandle(h), if ins.wantsHandle then multiset{(h, ins.e)} else multiset{})
       case Standalone(h) =>
         && ins.wantsHandle && h == |s.handles| && |r.handles| == h + 1
         && r.handles[h] == Handle(Meta(Invisible, 1, 0), ins.e, 0) && Passed1(mid, r, ins, charged, n)
         && Handed(s, r, ins, InHandle(h), multiset{(h, ins.e)})
       case Dropped =>
         && !ins.wantsHandle && Passed1(mid, r, ins, charged, n) && Handed(s, r, ins, Gone, multiset{})
  }

  /** The entry is not in the table: one for its key was there, or it was not charged. */
  ghost predicate Passed1(mid: seq<Slot>, r: State, ins: Ins, charged: bool, n: nat)
    requires Shaped(r)
  {
    if charged then exists h: nat :: FirstFit(mid, ins.key, h, n) && BoostedAt(mid, Slots(r), h, ins.key, ins.countdown)
    else !ins.strict && Slots(r) == mid
  }

  /** The insertion at the moment its charge is made. */
  ghost predicate Paid(s: State, m: State, t: nat, ins: Ins, n: nat) {
    && Shaped(m) && Owned(m) && m.size == Pow2(n) && t < |m.threads| && Brings(m, t, ins)
    && m.entries[ins.e].disposals == 0
    && m.users == s.users && |m.handles| == |s.handles| && ins.table
  }

  /** The totals, and the other entries, once the call is over. */
  predicate Ended(m: State, r: State, ins: Ins, charged: bool, res: InsertResult) {
    && r.usage == m.usage + (if res.InTable? || res.Standalone? then ins.c else 0) - (if charged then ins.c else 0)
    && r.occupancy == m.occupancy - B(!res.InTable?)
    && ins.e < |m.entries| == |r.entries| && r.entries == m.entries[ins.e := r.entries[ins.e]]
  }

  lemma PlaceEnds(s: State, m: State, t: nat, ins: Ins, q: nat, n: nat) returns (a: nat, r: State, res: InsertResult)
    requires Paid(s, m, t, ins, n) && q < m.size && Fits(m, ins.key, q)
    ensures Outcome(s, Slots(m), r, ins, true, res, n) && r.threads == m.threads && r.clock == m.clock
    ensures Ended(m, r, ins, true, res)
    ensures Goes(SetPc(m, t, Charged(ins, m.size)), t, a, SetPc(r, t, Idle))
  {
    hide Goes, Charged, FirstFit, PutAt, BoostedAt, Owned, Fits;
    var b, x, h, hit := Places(m, t, ins, n, q);
    var s0 := SetPc(m, t, Charged(ins, m.size));
    if !hit {
      a, r, res := b, x, InTable(h);
    } else if ins.wantsHandle {
      r, res := StoodAlone(x, ins), Standalone(|m.handles|);
      StandsAlone(x, t, ins);
      GoesThen(s0, t, b, SetPc(x, t, Insert(Alone(ins))), 1, SetPc(r, t, Idle));
      a := b + 1;
      AloneSlots(x, ins);
      assert FirstFit(Slots(m), ins.key, h, n) && BoostedAt(Slots(m), Slots(r), h, ins.key, ins.countdown);
    } else {
      r, res := DisposeOf(x.(usage := x.usage - ins.c), ins.e), Dropped;
      Uncharges(x, t, ins);
      GoesThen(s0, t, b, SetPc(x, t, Insert(Uncharge(ins))), 2, SetPc(r, t, Idle));
      a := b + 2;
      DisposedSlots(x, x.usage - ins.c, ins.e);
      assert FirstFit(Slots(m), ins.key, h, n) && BoostedAt(Slots(m), Slots(r), h, ins.key, ins.countdown);
    }
  }

  lemma AloneSlots(s: State, ins: Ins)
    requires Shaped(s) && ins.e < |s.entries|
    ensures Shaped(StoodAlone(s, ins)) && Slots(StoodAlone(s, ins)) == Slots(s)
  {
    var r := StoodAlone(s, ins);
    forall h: nat | h < s.size ensures SlotOf(r, h) == SlotOf(s, h) {}
  }

  lemma DisposedSlots(s: State, u: int, e: nat)
    requires Shaped(s) && e < |s.entries|
    ensures Shaped(DisposeOf(s.(usage := u), e)) && Slots(DisposeOf(s.(usage := u), e)) == Slots(s)
  {
    var r := DisposeOf(s.(usage := u), e);
    forall h: nat | h < s.size ensures SlotOf(r, h) == SlotOf(s, h) {}
  }

  lemma ReturnedSlots(s: State, o: int, e: nat)
    requires Shaped(s) && e < |s.entries|
    ensures Shaped(SetLoc(s, e, Returned)) && Slots(SetLoc(s, e, Returned).(occupancy := o)) == Slots(s)
  {
    var r := SetLoc(s, e, Returned).(occupancy := o);
    forall h: nat | h < s.size ensures SlotOf(r, h) == SlotOf(s, h) {}
  }

  /** An insertion whose charge was refused. */
  lemma FailEnds(s: State, m: State, t: nat, ins: Ins, n: nat) returns (a: nat, r: State, res: InsertResult)
    requires Paid(s, m, t, ins, n)
    ensures Outcome(s, Slots(m), r, ins, false, res, n) && r.threads == m.threads && r.clock == m.clock
    ensures Ended(m, r, ins, false, res)
    ensures Goes(SetPc(m, t, Insert(if ins.strict then StrictFail(ins) else LooseFail(ins))), t, a, SetPc(r, t, Idle))
  {
    hide Goes, FirstFit, PutAt, BoostedAt, Owned;
    if ins.strict {
      FailsStrict(m, t, ins);
      a, r, res := 1, SetLoc(m, ins.e, Returned).(occupancy := m.occupancy - 1), Failed;
      ReturnedSlots(m, m.occupancy - 1, ins.e);
    } else if ins.wantsHandle {
      var x := m.(occupancy := m.occupancy - 1, usage := m.usage + ins.c);
      Forces(m, t, ins);
      a, r, res := 3, StoodAlone(x, ins), Standalone(|m.handles|);
      AloneSlots(x, ins);
      assert Slots(x) == Slots(m);
    } else {
      var x := m.(occupancy := m.occupancy - 1);
      GivesUpLoose(m, t, ins);
      a, r, res := 2, DisposeOf(x, ins.e), Dropped;
      assert x.(usage := x.usage) == x && Slots(x) == Slots(m);
      DisposedSlots(x, x.usage, ins.e);
    }
  }

  /** From the invariants. */
  lemma IsPaid(s: State, m: State, t: nat, ins: Ins, steps: nat, c: nat, ok: bool, pc: InsertPc, n: nat)
    requires ChargedTo(s, m, steps, c, ok) && t < |m.threads| && ins.table && s.size == Pow2(n)
    requires Consistent(SetPc(m, t, Insert(pc)), n) && pc.ins == ins
    ensures Paid(s, m, t, ins, n)
  {
    hide ClockOwnership.Inv, ChargedTo;
    ChargedShape(s, m, steps, c, ok);
    var x := SetPc(m, t, Insert(pc));
    ClockOwnership.InvThread(x, t);
    ClockOwnership.InvReady(x, t, |x.handles|, ins.e);
    InvOwned(x);
    OwnedThreads(x, m);
  }

  lemma OwnedThreads(x: State, m: State)
    requires Owned(x) && x.handles == m.handles && x.entries == m.entries
    ensures Owned(m)
  {
  }

  lemma SlotThatFits(trace: seq<State>, steps: seq<Step>, i: nat, t: nat, a: nat, m: State, ins: Ins, k: nat)
    returns (q: nat)
    requires Run(trace, steps) && i < |trace| && trace[0].size == Pow2(k) && trace[0].occLimit < Pow2(k)
    requires ins.table && m.size == Pow2(k) && t < |m.threads|
    requires Goes(trace[i], t, a, SetPc(m, t, Charged(ins, m.size)))
    ensures q < m.size && Fits(m, ins.key, q)
  {
    hide Goes, Run, Probe, Turn;
    var tr, st, j := ExtendGoes(trace, steps, i, t, a, SetPc(m, t, Charged(ins, m.size)));
    var h := SomeEmptySlot(tr, st, j, t, k);
    q := Turn(ins.key, h, k);
    Find.ProbeOfTurn(ins.key, h, k);
  }

  /** The arguments of a call, as the machine keeps them. */
  function InsOf(s: State, key: Key, c: nat, countdown: nat, wantsHandle: bool, capacity: nat, strict: bool): Ins {
    Ins(|s.entries|, key, c, countdown, wantsHandle, true, false, s.occupancy >= s.occLimit, capacity, strict)
  }

  /** The state in which the call has brought its entry, the thread's position aside. */
  function Entered(s: State, t: nat, ins: Ins): State {
    s.(entries := s.entries + [Entry(ins.key, ins.c, With(t), 0)], occupancy := s.occupancy + 1)
  }

  /** From the charge on. */
  lemma Finishes(trace: seq<State>, steps: seq<Step>, i: nat, s: State, t: nat, ins: Ins, b: nat, m: State, moved: nat,
                 ok: bool, k: nat)
    returns (n: nat, r: State, res: InsertResult)
    requires Run(trace, steps) && i < |trace| && trace[0].size == Pow2(k) && trace[0].occLimit < Pow2(k)
    requires s.size == Pow2(k) && t < |s.threads| && ins.table && ChargedTo(s, m, moved, ins.c, ok)
      && m.threads == s.threads
    requires Goes(trace[i], t, b, SetPc(m, t, if ok then Charged(ins, s.size) else
                                             Insert(if ins.strict then StrictFail(ins) else LooseFail(ins))))
    ensures Shaped(m) && Outcome(s, Slots(m), r, ins, ok, res, k) && r.threads == s.threads && r.clock == m.clock
    ensures Ended(m, r, ins, ok, res)
    ensures Goes(trace[i], t, n, SetPc(r, t, Idle))
  {
    hide Goes, Run, ChargedTo, Outcome, Paid, Consistent, Fits, Ended;
    ChargedShape(s, m, moved, ins.c, ok);
    var pc := if ok then Charged(ins, s.size) else Insert(if ins.strict then StrictFail(ins) else LooseFail(ins));
    RunConsistent(trace, steps, i, k);
    ConsistentGoes(trace[i], t, b, SetPc(m, t, pc), k);
    IsPaid(s, m, t, ins, moved, ins.c, ok, pc.n, k);
    var a;
    if ok {
      var q := SlotThatFits(trace, steps, i, t, b, m, ins, k);
      a, r, res := PlaceEnds(s, m, t, ins, q, k);
    } else {
      a, r, res := FailEnds(s, m, t, ins, k);
    }
    GoesThen(trace[i], t, b, SetPc(m, t, pc), a, SetPc(r, t, Idle));
    n := b + a;
  }

  lemma Enters(s: State, t: nat, key: Key, c: nat, countdown: nat, wantsHandle: bool, capacity: nat, strict: bool)
    requires Shaped(s) && t < |s.threads| && s.threads[t].Idle? && 1 <= countdown <= 3
    ensures var call, ins := CallInsert(key, c, countdown, wantsHandle, capacity, strict),
                             InsOf(s, key, c, countdown, wantsHandle, capacity, strict);
      && Enabled(s, Start(t, call)) && Shaped(Entered(s, t, ins)) && Entered(s, t, ins).threads == s.threads
      && Apply(s, Start(t, call)) == SetPc(Entered(s, t, ins), t, ChargePc(ins))
  {
  }

  /** The room that an insertion finds once the hand has moved as far as it moves: whether it is charged. */
  predicate Accepts(ss: seq<Slot>, mid: seq<Slot>, was: int, ins: Ins) {
    if ins.strict then ins.c <= ins.capacity && EnoughFreed(ss, mid, was, ins.c, ins.capacity, ins.needSlot)
    else SlotFreed(ss, mid, ins.needSlot)
  }

  /** The charge, if it is not out of the question from the start. */
  lemma Charges(s: State, t: nat, ins: Ins, k: nat) returns (a: nat, m: State, moved: nat, ok: bool)
    requires Shaped(s) && Owned(s) && s.size == Pow2(k) && t < |s.threads| && ins.e < |s.entries|
    ensures ChargedTo(s, m, moved, ins.c, ok) && (ok <==> Accepts(Slots(s), Slots(m), s.usage, ins))
    ensures EvictedToInsert(Slots(s), s.clock, moved, s.usage, ins.c, ins.capacity, ins.strict, ins.needSlot)
    ensures moved == 0 ==> Slots(m) == Slots(s)
    ensures m.threads == s.threads && m.clock == s.clock + moved
    ensures Goes(SetPc(s, t, ChargePc(ins)), t, a,
                 SetPc(m, t, if ok then Charged(ins, s.size)
                   else Insert(if ins.strict then StrictFail(ins) else LooseFail(ins))))
  {
    hide Goes, ChargedTo, Owned, EvictedFor, EnoughFreed, SlotFreed, Charged;
    if !ins.strict {
      a, m, moved, ok := ChargesLoose(s, t, ins, k);
    } else if ins.c <= ins.capacity {
      a, m, moved, ok := ChargesStrict(s, t, ins, k);
    } else {
      NoGo(SetPc(s, t, ChargePc(ins)), t);
      a, m, moved, ok := 0, s, 0, false;
      Uncharged(s, ins.c);
    }
    ChargedShape(s, m, moved, ins.c, ok);
    ChargedClock(s, m, moved, ins.c, ok);
  }

  lemma Uncharged(s: State, c: nat)
    requires Shaped(s)
    ensures ChargedTo(s, s, 0, c, false)
  {
    NotMoved(s, s.clock);
    assert s.(usage := s.usage, occupancy := s.occupancy) == s;
  }

  lemma ChargedClock(s: State, m: State, moved: nat, c: nat, ok: bool)
    requires ChargedTo(s, m, moved, c, ok)
    ensures m.clock == s.clock + moved
  {
  }

  /** An Insert that nobody interferes with, in any state of any run, comes to what the table run one operation at a
      time comes to: the hand moves as far as it has to, the entry is charged exactly if that made room, and it ends up
      in the first slot of its path that fits, in a standalone handle, disposed of or with the caller again. */
  lemma InsertAlone(trace: seq<State>, steps: seq<Step>, i: nat, t: nat, key: Key, c: nat, countdown: nat,
                    wantsHandle: bool, capacity: nat, strict: bool, k: nat)
    returns (n: nat, r: State, res: InsertResult, mid: seq<Slot>, moved: nat, ok: bool)
    requires Run(trace, steps) && i < |trace| && trace[0].size == Pow2(k) && trace[0].occLimit < Pow2(k)
    requires t < |trace[i].threads| && trace[i].threads[t].Idle? && 1 <= countdown <= 3
    ensures var s, call := trace[i], CallInsert(key, c, countdown, wantsHandle, capacity, strict);
      && Enabled(s, Start(t, call)) && Goes(Apply(s, Start(t, call)), t, n, r) && r.threads == s.threads
      && Shaped(Apply(s, Start(t, call)))
      && var ss, ins := Slots(Apply(s, Start(t, call))), InsOf(s, key, c, countdown, wantsHandle, capacity, strict);
         && |ss| == Pow2(k) && AgedAll(ss, mid, s.clock, moved) && r.clock == s.clock + moved
         && EvictedToInsert(ss, s.clock, moved, s.usage, c, capacity, strict, s.occupancy >= s.occLimit)
         && (moved == 0 ==> mid == ss)
         && (ok <==> Accepts(ss, mid, s.usage, ins)) && Outcome(s, mid, r, ins, ok, res, k)
         && Balanced(s, ss, mid, r, ins, moved, res)
  {
    hide Goes, ChargedTo, Owned, Outcome, EvictedToInsert, Accepts, ChargePc, Charged, Run, AgedAll, Consistent, Ended,
      Balanced;
    var s, call := trace[i], CallInsert(key, c, countdown, wantsHandle, capacity, strict);
    var ins := InsOf(s, key, c, countdown, wantsHandle, capacity, strict);
    RunConsistent(trace, steps, i, k);
    ConsistentShaped(s, k);
    Enters(s, t, key, c, countdown, wantsHandle, capacity, strict);
    var e, go := Entered(s, t, ins), Start(t, call);
    var tr, st := Extend(trace, steps, i, go);
    ClockOwnership.RunInv(tr, st, i + 1);
    InvOwned(tr[i + 1]);
    OwnedThreads(tr[i + 1], e);
    assert Slots(tr[i + 1]) == Slots(e);
    var a, m;
    a, m, moved, ok := Charges(e, t, ins, k);
    ChargedShape(e, m, moved, c, ok);
    mid := Slots(m);
    var x, y;
    x, y, res := Finishes(tr, st, i + 1, e, t, ins, a, m, moved, ok, k);
    n, r := x, y;
    assert s.threads[t := Idle] == s.threads;
    assert SetPc(r, t, Idle) == r;
    OutcomeSame(s, e, mid, r, ins, ok, res, k);
    IsBalanced(s, e, t, m, r, ins, moved, ok, res);
  }

  lemma IsBalanced(s: State, e: State, t: nat, m: State, r: State, ins: Ins, moved: nat, ok: bool, res: InsertResult)
    requires Shaped(e) && e == Entered(s, t, ins) && ins.e == |s.entries| && ChargedTo(e, m, moved, ins.c, ok)
    requires Shaped(m) && Ended(m, r, ins, ok, res) && (moved == 0 ==> Slots(m) == Slots(e))
    ensures Balanced(s, Slots(e), Slots(m), r, ins, moved, res)
  {
    var x := m.(usage := e.usage, occupancy := e.occupancy);
    if moved == 0 {
      forall y: nat | y < |e.entries| ensures !Evicted(e, x, y) {
        forall h: nat | h < e.size ensures x.handles[h].meta == e.handles[h].meta {
          assert Slots(m)[h].meta == m.handles[h].meta;
        }
      }
    }
  }

  /** The totals afterwards are those before, less what was evicted, and the new entry if it came in; the other entries
      are as they were, or were evicted and disposed of. */
  predicate Balanced(s: State, ss: seq<Slot>, mid: seq<Slot>, r: State, ins: Ins, moved: nat, res: InsertResult) {
    && r.usage == s.usage - (Weight(ss) - Weight(mid)) + (if res.InTable? || res.Standalone? then ins.c else 0)
    && r.occupancy == s.occupancy - (Filled(ss) - Filled(mid)) + B(res.InTable?)
    && |r.entries| == |s.entries| + 1
    && (forall x: nat :: x < |s.entries| ==>
          r.entries[x] == s.entries[x] || (moved > 0 && Disposed(s.entries[x], r.entries[x])))
  }

  lemma OutcomeSame(s: State, e: State, mid: seq<Slot>, r: State, ins: Ins, ok: bool, res: InsertResult, k: nat)
    requires Outcome(e, mid, r, ins, ok, res, k) && e.users == s.users && |e.handles| == |s.handles|
    ensures Outcome(s, mid, r, ins, ok, res, k)
  {
    hide FirstFit, PutAt, Passed1;
  }

  // ---------------------------------------------------------------- CreateStandalone

  /** What CreateStandalone comes to: a standalone handle, uncharged if it is not accepted and may be, or nothing. */
  ghost predicate AloneOutcome(s: State, r: State, ins: Ins, charged: bool) {
    if charged || ins.uncharged then
      && |r.handles| == |s.handles| + 1 && r.handles[|s.handles|] == Handle(Meta(Invisible, 1, 0), ins.e, 0)
      && Handed(s, r, ins, InHandle(|s.handles|), multiset{(|s.handles|, ins.e)})
      && r.entries[ins.e].charge == if charged then ins.c else 0
    else Handed(s, r, ins, Returned, multiset{})
  }

  function AloneInsOf(s: State, key: Key, c: nat, uncharged: bool, capacity: nat, strict: bool): Ins {
    Ins(|s.entries|, key, c, 1, true, false, uncharged, false, capacity, strict)
  }

  function AloneEntered(s: State, t: nat, ins: Ins): State {
    s.(entries := s.entries + [Entry(ins.key, ins.c, With(t), 0)])
  }

  lemma EntersAlone(s: State, t: nat, key: Key, c: nat, uncharged: bool, capacity: nat, strict: bool)
    requires Shaped(s) && t < |s.threads| && s.threads[t].Idle?
    ensures var call, ins := CallStandalone(key, c, uncharged, capacity, strict),
                             AloneInsOf(s, key, c, uncharged, capacity, strict);
      && Enabled(s, Start(t, call)) && Shaped(AloneEntered(s, t, ins)) && AloneEntered(s, t, ins).threads == s.threads
      && Apply(s, Start(t, call)) == SetPc(AloneEntered(s, t, ins), t, ChargePc(ins))
  {
  }

  /** The end of CreateStandalone. */
  lemma AloneEnds(s: State, m: State, t: nat, ins: Ins, ok: bool) returns (a: nat, r: State)
    requires Shaped(m) && t < |m.threads| && Brings(m, t, ins) && m.entries[ins.e].disposals == 0 && !ins.table
    requires m.users == s.users && |m.handles| == |s.handles| && (!ok ==> ins.strict)
    ensures AloneOutcome(s, r, ins, ok) && r.threads == m.threads && r.clock == m.clock && m.handles <= r.handles
    ensures Goes(SetPc(m, t, if ok then Charged(ins, m.size) else Insert(StrictFail(ins))), t, a, SetPc(r, t, Idle))
  {
    hide Goes;
    if ok {
      StandsAlone(m, t, ins);
      a, r := 1, StoodAlone(m, ins);
    } else if ins.uncharged {
      var x, free := m.(entries := m.entries[ins.e := m.entries[ins.e].(charge := 0)]), ins.(c := 0);
      var s0 := SetPc(m, t, Insert(StrictFail(ins)));
      SetTwice(x, t, Insert(StrictFail(ins)), Insert(Alone(free)));
      OneGo(s0, t);
      StandsAlone(x, t, free);
      a, r := 2, StoodAlone(x, free);
      GoesThen(s0, t, 1, SetPc(x, t, Insert(Alone(free))), 1, SetPc(r, t, Idle));
    } else {
      var x := SetLoc(m, ins.e, Returned);
      SetTwice(x, t, Insert(StrictFail(ins)), Idle);
      OneGo(SetPc(m, t, Insert(StrictFail(ins))), t);
      a, r := 1, x;
    }
  }

  /** A CreateStandalone that nobody interferes with, likewise: it evicts what it has to and gives its caller a handle,
      or the entry back; no slot is touched but by the hand. */
  lemma StandaloneAlone(trace: seq<State>, steps: seq<Step>, i: nat, t: nat, key: Key, c: nat, uncharged: bool,
                        capacity: nat, strict: bool, k: nat)
    returns (n: nat, r: State, m: State, moved: nat, ok: bool)
    requires Run(trace, steps) && i < |trace| && trace[0].size == Pow2(k)
    requires t < |trace[i].threads| && trace[i].threads[t].Idle?
    ensures var s, call := trace[i], CallStandalone(key, c, uncharged, capacity, strict);
      && Enabled(s, Start(t, call)) && Goes(Apply(s, Start(t, call)), t, n, r) && r.threads == s.threads
      && Shaped(Apply(s, Start(t, call))) && Shaped(m) && m.handles <= r.handles
      && var ss, ins := Slots(Apply(s, Start(t, call))), AloneInsOf(s, key, c, uncharged, capacity, strict);
         && |ss| == Pow2(k) && AgedAll(ss, Slots(m), s.clock, moved) && r.clock == s.clock + moved
         && EvictedToInsert(ss, s.clock, moved, s.usage, c, capacity, strict, false)
         && (moved == 0 ==> Slots(m) == ss)
         && (ok <==> Accepts(ss, Slots(m), s.usage, ins)) && AloneOutcome(s, r, ins, ok)
  {
    hide Goes, ChargedTo, Owned, AloneOutcome, EvictedToInsert, ChargePc, Charged, Run, AgedAll, Consistent;
    var s, call := trace[i], CallStandalone(key, c, uncharged, capacity, strict);
    var ins := AloneInsOf(s, key, c, uncharged, capacity, strict);
    RunConsistent(trace, steps, i, k);
    ConsistentShaped(s, k);
    EntersAlone(s, t, key, c, uncharged, capacity, strict);
    var e, go := AloneEntered(s, t, ins), Start(t, call);
    var tr, st := Extend(trace, steps, i, go);
    ClockOwnership.RunInv(tr, st, i + 1);
    InvOwned(tr[i + 1]);
    OwnedThreads(tr[i + 1], e);
    assert Slots(tr[i + 1]) == Slots(e);
    var a;
    a, m, moved, ok := Charges(e, t, ins, k);
    ChargedShape(e, m, moved, c, ok);
    var pc := if ok then Charged(ins, s.size) else Insert(StrictFail(ins));
    RunConsistent(tr, st, i + 1, k);
    ConsistentGoes(tr[i + 1], t, a, SetPc(m, t, pc), k);
    AlonePaid(m, t, ins, ok, k);
    var b, x := AloneEnds(e, m, t, ins, ok);
    GoesThen(tr[i + 1], t, a, SetPc(m, t, pc), b, SetPc(x, t, Idle));
    n, r := a + b, x;
    assert s.threads[t := Idle] == s.threads;
    assert SetPc(r, t, Idle) == r;
    AloneOutcomeSame(s, e, r, ins, ok);
  }

  lemma AlonePaid(m: State, t: nat, ins: Ins, ok: bool, k: nat)
    requires Shaped(m) && t < |m.threads| && !ins.table
    requires Consistent(SetPc(m, t, if ok then Charged(ins, m.size) else Insert(StrictFail(ins))), k)
    ensures Brings(m, t, ins) && m.entries[ins.e].disposals == 0
  {
    hide ClockOwnership.Inv;
    var x := SetPc(m, t, if ok then Charged(ins, m.size) else Insert(StrictFail(ins)));
    ClockOwnership.InvThread(x, t);
    ClockOwnership.InvReady(x, t, |x.handles|, ins.e);
  }

  lemma AloneOutcomeSame(s: State, e: State, r: State, ins: Ins, ok: bool)
    requires AloneOutcome(e, r, ins, ok) && e.users == s.users && |e.handles| == |s.handles|
    ensures AloneOutcome(s, r, ins, ok)
  {
  }
}
