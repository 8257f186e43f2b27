/**
 Room in the clock table, on every interleaving.

 An insertion that finds occupancy_ at its limit has to evict an entry before it looks for a slot.  So the slots in
 use and the insertions looking for one never outnumber the limit, which is below the number of slots.  All the same
 an insertion may come across no free slot, but only if slots are freed while it looks: behind it, and others are
 filled ahead of it.
 */
module ClockRoom {
  import opened Basics
  import opened ClockProbe
  import opened ClockMachine
  import opened ClockOwnership
  import opened ClockAccounting
  import opened ClockPaths
  import opened Sums
  import ClockDisplacement

  // ---------------------------------------------------------------- insertions that still have to make room

  /** The thread's insertion found the table full and has not evicted anything yet. */
  function Excess(pc: Pc): nat {
    match pc
    case Insert(n) => InsertExcess(n)
    case Evict(v) => B(v.ev.ins.needSlot)
    case Remove(Roll(_, _, _, ToEvict(ev))) => B(ev.ins.needSlot)
    case Remove(Dispose(_, _, ToEvict(ev))) => B(ev.ins.needSlot)
    case Remove(Mark(_, _, ToEvict(ev))) => B(ev.ins.needSlot)
    case _ => 0
  }

  function InsertExcess(n: InsertPc): nat {
    if n.StrictAdjust? then B(n.ins.needSlot && n.none)
    else if n.StrictCharge? || n.StrictFail? || n.LooseLoad? || n.LooseFail? then B(n.ins.needSlot)
    else 0
  }

  function Excesses(ths: seq<Pc>): (xs: seq<int>)
    ensures |xs| == |ths|
  {
    seq(|ths|, i requires 0 <= i < |ths| => Excess(ths[i]))
  }

  /** What threads remember of an eviction. */
  predicate Remembers(pc: Pc) {
    match pc
    case Insert(StrictAdjust(_, _, _, freed, none)) => none ==> freed == 0
    case Remove(Mark(_, _, ToEvict(ev))) => ev.count > 0
    case _ => true
  }

  ghost predicate Roomy(s: State) {
    && s.occupancy - Sum(Excesses(s.threads)) <= s.occLimit
    && forall t: nat {:trigger s.threads[t]} :: t < |s.threads| ==> Remembers(s.threads[t])
  }

  /** Thread t goes on, and occupancy_ without the threads in excess does not grow. */
  ghost predicate Eases(s: State, r: State, t: nat) {
    && t < |s.threads| && |r.threads| == |s.threads| && r.threads == s.threads[t := r.threads[t]]
    && r.occLimit == s.occLimit && r.size == s.size && Remembers(r.threads[t])
    && r.occupancy - Excess(r.threads[t]) <= s.occupancy - Excess(s.threads[t])
  }

  lemma EasesKeeps(s: State, r: State, t: nat)
    requires Roomy(s) && Eases(s, r, t)
    ensures Roomy(r)
  {
    hide Excess, Remembers;
    assert Excesses(r.threads) == Excesses(s.threads)[t := Excess(r.threads[t])];
    SumUpdate(Excesses(s.threads), t, Excess(r.threads[t]));
  }

  lemma FindEases(s: State, t: nat, f: FindPc)
    requires Shaped(s) && t < |s.threads| && f.h < s.size && (s.threads[t] == Lookup(f) || s.threads[t] == Erase(f))
    ensures Eases(s, DoGo(s, t), t)
  {
  }

  lemma TakeEases(s: State, t: nat, k: TakePc)
    requires Shaped(s) && t < |s.threads| && s.threads[t] == Take(k) && InBounds(s, s.threads[t])
    ensures Eases(s, GoTake(s, t, k), t)
  {
  }

  lemma RemoveEases(s: State, t: nat, p: RemovePc)
    requires Shaped(s) && t < |s.threads| && s.threads[t] == Remove(p) && RemoveInBounds(s, p)
    ensures Eases(s, GoRemove(s, t, p), t)
  {
  }

  lemma EvictEases(s: State, t: nat, v: EvictPc)
    requires Shaped(s) && t < |s.threads| && s.threads[t] == Evict(v) && EvOk(v.ev)
    ensures Eases(s, GoEvict(s, t, v), t)
  {
  }

  lemma PlaceEases(s: State, t: nat, n: InsertPc)
    requires Shaped(s) && t < |s.threads| && s.threads[t] == Insert(n) && Placing(n) && InBounds(s, s.threads[t])
    ensures Eases(s, GoPlace(s, t, n), t)
  {
  }

  lemma BackEases(s: State, t: nat, n: InsertPc)
    requires Shaped(s) && t < |s.threads| && s.threads[t] == Insert(n) && Backing(n) && InBounds(s, s.threads[t])
    ensures Eases(s, GoBack(s, t, n), t)
  {
  }

  lemma ChargeEases(s: State, t: nat, n: InsertPc)
    requires Shaped(s) && t < |s.threads| && s.threads[t] == Insert(n) && !Placing(n) && !Backing(n)
    requires n.ins.e < |s.entries| && (!n.ins.table ==> !n.ins.needSlot) && Remembers(s.threads[t])
    ensures Eases(s, GoCharge(s, t, n), t)
  {
  }

  lemma StartEases(s: State, t: nat, call: Call)
    requires Shaped(s) && t < |s.threads| && s.threads[t].Idle? && CallOk(s, call) && !call.CallInsert?
    ensures Eases(s, DoStart(s, t, call), t)
  {
  }

  /** An insertion that finds room takes it; one that does not is in excess. */
  lemma InsertStarts(s: State, t: nat, call: Call)
    requires Shaped(s) && t < |s.threads| && s.threads[t].Idle? && call.CallInsert? && CallOk(s, call) && Roomy(s)
    ensures Roomy(DoStart(s, t, call))
  {
    var r := DoStart(s, t, call);
    assert Excesses(r.threads) == Excesses(s.threads)[t := Excess(r.threads[t])];
    SumUpdate(Excesses(s.threads), t, Excess(r.threads[t]));
    SumNonNegative(Excesses(r.threads));
  }

  lemma GoRoomy(s: State, t: nat)
    requires Inv(s) && t < |s.threads| && Roomy(s)
    ensures InBounds(s, s.threads[t]) && Roomy(DoGo(s, t))
  {
    hide Inv, Roomy, Eases, GoLookup, GoErase, GoTake, GoRemove, GoEvict, GoPlace, GoBack, GoCharge, Remembers;
    InvThread(s, t);
    RemembersAt(s, t);
    match s.threads[t] {
      case Idle =>
      case Lookup(f) => FindEases(s, t, f);
      case Erase(f) => FindEases(s, t, f);
      case Take(k) => TakeEases(s, t, k);
      case Remove(p) => RemoveEases(s, t, p);
      case Evict(v) => EvictEases(s, t, v);
      case Insert(n) =>
        if Placing(n) { PlaceEases(s, t, n); }
        else if Backing(n) { BackEases(s, t, n); }
        else { ChargeEases(s, t, n); }
    }
    if !s.threads[t].Idle? { EasesKeeps(s, DoGo(s, t), t); }
  }

  lemma RemembersAt(s: State, t: nat)
    requires Roomy(s) && t < |s.threads|
    ensures Remembers(s.threads[t])
  {
  }

  lemma StepRoomy(s: State, step: Step)
    requires Inv(s) && Enabled(s, step) && Roomy(s)
    ensures Roomy(Apply(s, step))
  {
    hide Inv, Roomy, DoGo, DoStart;
    match step
    case Start(t, call) =>
      if call.CallInsert? {
        InsertStarts(s, t, call);
      } else {
        StartEases(s, t, call);
        EasesKeeps(s, DoStart(s, t, call), t);
      }
    case Go(t) => GoRoomy(s, t);
  }

  lemma {:induction false} RunRoomy(trace: seq<State>, steps: seq<Step>, i: nat)
    requires Run(trace, steps) && i < |trace|
    ensures Roomy(trace[i])
  {
    hide Inv, Enabled, Apply;
    if i == 0 {
      SumZero(Excesses(trace[0].threads));
    } else {
      RunRoomy(trace, steps, i - 1);
      RunInv(trace, steps, i - 1);
      StepRoomy(trace[i - 1], steps[i - 1]);
    }
  }

  // ---------------------------------------------------------------- slots in use

  predicate Full(s: State, h: nat) {
    h < |s.handles| && !s.handles[h].meta.st.Empty?
  }

  /** The slots below n that are not empty. */
  function Fulls(s: State, n: nat): seq<int> {
    seq(n, h requires 0 <= h < n => B(Full(s, h)))
  }

  /** The entries stored in slots below n. */
  function StoredBelow(es: seq<Entry>, n: nat): seq<int> {
    seq(|es|, e requires 0 <= e < |es| => B(es[e].loc.InHandle? && es[e].loc.h < n))
  }

  /** The threads that own a slot below n with no entry in it. */
  function BareBelow(ths: seq<Pc>, n: nat): seq<int> {
    seq(|ths|, t requires 0 <= t < |ths| => B(GripOf(ths[t]).c.bare == 1 && GripOf(ths[t]).h < n))
  }

  /** The thread is looking for a slot, or giving up to. */
  predicate Seeks(pc: Pc) {
    pc.Insert? && ((Placing(pc.n) && !pc.n.Write? && !pc.n.Publish?) || pc.n.Lost? || pc.n.Back?)
  }

  function Seekers(ths: seq<Pc>): seq<int> {
    seq(|ths|, t requires 0 <= t < |ths| => B(Seeks(ths[t])))
  }

  lemma {:induction false} SumAtMost(xs: seq<int>, ys: seq<int>)
    requires |xs| == |ys| && forall i :: 0 <= i < |xs| ==> xs[i] <= ys[i]
    ensures Sum(xs) <= Sum(ys)
  {
    if |xs| > 0 { SumAtMost(xs[..|xs| - 1], ys[..|ys| - 1]); }
  }

  lemma SumBelow(xs: seq<int>, ys: seq<int>, i: nat)
    requires |xs| == |ys| && i < |xs| && xs[i] < ys[i] && forall j :: 0 <= j < |xs| ==> xs[j] <= ys[j]
    ensures Sum(xs) + 1 <= Sum(ys)
  {
    SumUpdate(xs, i, xs[i] + 1);
    SumAtMost(xs[i := xs[i] + 1], ys);
  }

  /** A slot is in use because an entry is stored in it or a thread owns it. */
  lemma WhyFull(s: State, h: nat) returns (byEntry: bool, x: nat)
    requires Inv(s) && h < s.size && Full(s, h)
    ensures byEntry ==> x < |s.entries| && s.entries[x].loc == InHandle(h)
    ensures !byEntry ==> x < |s.threads| && GripOf(s.threads[x]).c.bare == 1 && GripOf(s.threads[x]).h == h
  {
    assert HandleOk(s, h);
    if Shareable(s.handles[h].meta) {
      byEntry, x := true, s.handles[h].entry;
    } else if Claims(s, h).store > 0 {
      var t := SumPositive(Parts(s.threads, h, Store));
      assert ThreadOk(s, t);
      byEntry, x := true, s.handles[h].entry;
    } else {
      byEntry := false;
      x := SumPositive(Parts(s.threads, h, Bare));
    }
  }

  lemma StoredGrows(es: seq<Entry>, n: nat)
    ensures Sum(StoredBelow(es, n)) <= Sum(StoredBelow(es, n + 1))
  {
    SumAtMost(StoredBelow(es, n), StoredBelow(es, n + 1));
  }

  lemma StoredMore(es: seq<Entry>, n: nat, e: nat)
    requires e < |es| && es[e].loc == InHandle(n)
    ensures Sum(StoredBelow(es, n)) + 1 <= Sum(StoredBelow(es, n + 1))
  {
    SumBelow(StoredBelow(es, n), StoredBelow(es, n + 1), e);
  }

  lemma BareGrows(ths: seq<Pc>, n: nat)
    ensures Sum(BareBelow(ths, n)) <= Sum(BareBelow(ths, n + 1))
  {
    hide GripOf;
    SumAtMost(BareBelow(ths, n), BareBelow(ths, n + 1));
  }

  lemma BareMore(ths: seq<Pc>, n: nat, t: nat)
    requires t < |ths| && GripOf(ths[t]).c.bare == 1 && GripOf(ths[t]).h == n
    ensures Sum(BareBelow(ths, n)) + 1 <= Sum(BareBelow(ths, n + 1))
  {
    hide GripOf;
    SumBelow(BareBelow(ths, n), BareBelow(ths, n + 1), t);
  }

  lemma FullsMore(s: State, n: nat)
    ensures Sum(Fulls(s, n + 1)) == Sum(Fulls(s, n)) + B(Full(s, n))
  {
    assert Fulls(s, n + 1) == Fulls(s, n) + [B(Full(s, n))];
    SumAppend(Fulls(s, n), B(Full(s, n)));
  }

  lemma {:induction false} FullsCounted(s: State, n: nat)
    requires Inv(s) && n <= s.size
    ensures Sum(Fulls(s, n)) <= Sum(StoredBelow(s.entries, n)) + Sum(BareBelow(s.threads, n))
  {
    if n == 0 {
      SumZero(StoredBelow(s.entries, 0));
      SumZero(BareBelow(s.threads, 0));
    } else {
      hide Inv, GripOf, Full, Fulls, StoredBelow, BareBelow;
      FullsCounted(s, n - 1);
      FullsMore(s, n - 1);
      StoredGrows(s.entries, n - 1);
      BareGrows(s.threads, n - 1);
      if Full(s, n - 1) {
        var byEntry, x := WhyFull(s, n - 1);
        if byEntry { StoredMore(s.entries, n - 1, x); } else { BareMore(s.threads, n - 1, x); }
      }
    }
  }

  // ---------------------------------------------------------------- there is always room

  /** A thread's share of occupancy_, beyond its excess, covers the slot it owns or looks for. */
  lemma ShareCovers(s: State, t: nat)
    requires t < |s.threads| && ThreadOk(s, t) && Adds(s.threads[t]) && Remembers(s.threads[t])
    ensures Excess(s.threads[t]) + B(Seeks(s.threads[t])) + B(GripOf(s.threads[t]).c.bare == 1)
         <= SlotsDue(s.threads[t])
  {
  }

  lemma {:induction false} SharesCover(s: State, n: nat)
    requires n <= |s.threads|
    requires forall t: nat :: t < n ==> ThreadOk(s, t) && Adds(s.threads[t]) && Remembers(s.threads[t])
    ensures Sum(Excesses(s.threads[..n])) + Sum(Seekers(s.threads[..n])) + Sum(BareBelow(s.threads[..n], s.size))
         <= Sum(Slotses(s.threads[..n]))
  {
    hide ThreadOk, Adds, Remembers, Excess, Seeks, GripOf, SlotsDue;
    if n > 0 {
      SharesCover(s, n - 1);
      ShareCovers(s, n - 1);
      var a, b := s.threads[..n], s.threads[..n - 1];
      assert a[..n - 1] == b;
      assert Excesses(a)[..n - 1] == Excesses(b) && Seekers(a)[..n - 1] == Seekers(b);
      assert BareBelow(a, s.size)[..n - 1] == BareBelow(b, s.size) && Slotses(a)[..n - 1] == Slotses(b);
    }
  }

  /** In every state of every run the slots in use and the insertions that look for one do not outnumber the limit. */
  lemma RoomLeft(trace: seq<State>, steps: seq<Step>, i: nat)
    requires Run(trace, steps) && i < |trace|
    ensures var s := trace[i]; Sum(Fulls(s, s.size)) + Sum(Seekers(s.threads)) <= s.occLimit
  {
    hide Inv, ThreadOk, Adds, Remembers, Excess, Seeks, GripOf, SlotsDue;
    var s := trace[i];
    RunAccount(trace, steps, i);
    RunRoomy(trace, steps, i);
    FullsCounted(s, s.size);
    forall t: nat | t < |s.threads| ensures ThreadOk(s, t) { InvThread(s, t); }
    SharesCover(s, |s.threads|);
    assert s.threads[..|s.threads|] == s.threads;
    assert StoredBelow(s.entries, s.size) == Taken(s.entries, s.size);
  }

  // ---------------------------------------------------------------- an insertion that finds no slot

  /** The step marks a slot empty. */
  predicate Frees(s: State, step: Step) {
    step.Go? && step.t < |s.threads| && s.threads[step.t].Remove? && s.threads[step.t].r.Mark?
  }

  lemma RemoveKeepsFull(s: State, t: nat, p: RemovePc, h: nat)
    requires Shaped(s) && t < |s.threads| && RemoveInBounds(s, p) && Full(s, h) && !p.Mark?
    ensures Full(GoRemove(s, t, p), h)
  {
  }

  lemma PlaceKeepsFull(s: State, t: nat, n: InsertPc, h: nat)
    requires Shaped(s) && t < |s.threads| && s.threads[t] == Insert(n) && InBounds(s, s.threads[t]) && Full(s, h)
    ensures Full(DoGo(s, t), h)
  {
  }

  lemma OtherKeepsFull(s: State, t: nat, h: nat)
    requires Shaped(s) && t < |s.threads| && InBounds(s, s.threads[t]) && Full(s, h)
    requires !s.threads[t].Remove? && !s.threads[t].Insert?
    ensures Full(DoGo(s, t), h)
  {
  }

  lemma StartKeepsFull(s: State, t: nat, call: Call, h: nat)
    requires Shaped(s) && t < |s.threads| && s.threads[t].Idle? && CallOk(s, call) && Full(s, h)
    ensures Full(DoStart(s, t, call), h)
  {
  }

  /** Only marking a slot empty empties it. */
  lemma StaysFull(s: State, step: Step, h: nat)
    requires Enabled(s, step) && Full(s, h) && !Frees(s, step)
    ensures Full(Apply(s, step), h)
  {
    hide DoGo, DoStart;
    match step
    case Start(t, call) => StartKeepsFull(s, t, call, h);
    case Go(t) =>
      match s.threads[t] {
        case Remove(p) => RemoveGo(s, t, p); RemoveKeepsFull(s, t, p, h);
        case Insert(n) => PlaceKeepsFull(s, t, n, h);
        case _ => OtherKeepsFull(s, t, h);
      }
  }

  lemma RemoveGo(s: State, t: nat, p: RemovePc)
    requires Shaped(s) && t < |s.threads| && s.threads[t] == Remove(p) && RemoveInBounds(s, p)
    ensures DoGo(s, t) == GoRemove(s, t, p)
  {
  }

  /** The insertion is on its way along the path, or past its end, and has not got a slot. */
  predicate Underway(pc: Pc) {
    pc.Insert? && ((Placing(pc.n) && !pc.n.Write? && !pc.n.Publish?) || pc.n.Lost?)
  }

  /** How many slots have refused it: the one at hand too, once it was found in use. */
  function Refusals(n: InsertPc, size: nat): nat
    requires Placing(n) || n.Lost?
  {
    if n.Lost? then size else if n.Claim? then n.p else n.p + 1
  }

  /** The slots that have refused it are in use. */
  ghost predicate Refused(s: State, t: nat)
    requires t < |s.threads| && Underway(s.threads[t]) && s.size > 0
  {
    var n := s.threads[t].n;
    forall q: nat {:trigger Probe(n.ins.key, q, s.size)} ::
      q < Refusals(n, s.size) ==> Full(s, Probe(n.ins.key, q, s.size))
  }

  /** Its own step adds the slot at hand if that one is in use. */
  lemma OwnStep(s: State, t: nat, k: nat)
    requires Shaped(s) && s.size == Pow2(k) && t < |s.threads| && Underway(s.threads[t]) && InBounds(s, s.threads[t])
    requires ClockDisplacement.InsertPath(s.threads[t].n, k)
    requires t < |DoGo(s, t).threads| && Underway(DoGo(s, t).threads[t])
    ensures var n, m := s.threads[t].n, DoGo(s, t).threads[t].n;
      && m.ins == n.ins && Refusals(m, s.size) <= Refusals(n, s.size) + 1
      && (Refusals(m, s.size) > Refusals(n, s.size) ==>
            Refusals(n, s.size) == n.p && n.h == Probe(n.ins.key, n.p, s.size) && Full(s, n.h))
  {
    hide Probe, Pow2, First, Advance, Turn;
  }

  lemma RefusedStays(s: State, step: Step, t: nat, k: nat)
    requires Inv(s) && s.size == Pow2(k) && Enabled(s, step) && !Frees(s, step) && t < |s.threads|
    requires Underway(s.threads[t]) && ClockDisplacement.InsertPath(s.threads[t].n, k) && Refused(s, t)
    requires Apply(s, step).size == s.size && t < |Apply(s, step).threads| && Underway(Apply(s, step).threads[t])
    requires step == Go(t) || Apply(s, step).threads[t] == s.threads[t]
    ensures Refused(Apply(s, step), t)
  {
    hide Inv, Apply, Enabled, Frees, ClockDisplacement.InsertPath;
    var r := Apply(s, step);
    var n, m := s.threads[t].n, r.threads[t].n;
    InvThread(s, t);
    if step == Go(t) {
      ApplyGo(s, t);
      OwnStep(s, t, k);
    }
    forall q: nat {:trigger Probe(m.ins.key, q, r.size)} | q < Refusals(m, r.size)
      ensures Full(r, Probe(m.ins.key, q, r.size))
    {
      StaysFull(s, step, Probe(n.ins.key, q, s.size));
    }
  }

  lemma ApplyGo(s: State, t: nat)
    requires Enabled(s, Go(t))
    ensures Shaped(s) && t < |s.threads| && InBounds(s, s.threads[t]) && Apply(s, Go(t)) == DoGo(s, t)
  {
  }

  lemma OnlyOwnSteps(s: State, step: Step, t: nat)
    requires Enabled(s, step) && t < |s.threads| && !s.threads[t].Idle?
    ensures t < |Apply(s, step).threads| && Apply(s, step).size == s.size && Apply(s, step).occLimit == s.occLimit
    ensures step == Go(t) || Apply(s, step).threads[t] == s.threads[t]
  {
    hide DoGo, DoStart;
    StepMoves(s, step);
  }

  /** While thread t's insertion is under way from i to j and no slot is freed, what refused it stays in use. */
  lemma {:induction false} RefusedUpTo(trace: seq<State>, steps: seq<Step>, i: nat, j: nat, t: nat, k: nat)
    requires Run(trace, steps) && i <= j < |trace| && trace[0].size == Pow2(k)
    requires t < |trace[i].threads| && trace[i].threads[t].Insert? && trace[i].threads[t].n.Claim?
    requires trace[i].threads[t].n.p == 0
    requires forall x: nat :: i <= x <= j ==> t < |trace[x].threads| && Underway(trace[x].threads[t])
    requires forall x: nat :: i <= x < j ==> !Frees(trace[x], steps[x])
    ensures trace[j].size == Pow2(k) && Refused(trace[j], t) && trace[j].occLimit == trace[i].occLimit
    decreases j
  {
    hide Inv, Apply, Enabled, Refused, Frees, Underway, Pow2;
    ClockDisplacement.RunCounts(trace, steps, j, 0, k);
    if i == j {
      NoneYet(trace[i], t);
    } else {
      RefusedUpTo(trace, steps, i, j - 1, t, k);
      var s := trace[j - 1];
      RunInv(trace, steps, j - 1);
      assert Underway(s.threads[t]) && Underway(trace[j].threads[t]) && !Frees(s, steps[j - 1]);
      BusyUnderway(s.threads[t]);
      OnlyOwnSteps(s, steps[j - 1], t);
      ClockDisplacement.RunCounts(trace, steps, j - 1, 0, k);
      ClockDisplacement.PathAt(s, t, k);
      RefusedStays(s, steps[j - 1], t, k);
    }
  }

  lemma BusyUnderway(pc: Pc)
    requires Underway(pc)
    ensures pc.Insert? && (Placing(pc.n) || pc.n.Lost?) && Seeks(pc)
  {
  }

  lemma NoneYet(s: State, t: nat)
    requires t < |s.threads| && s.threads[t].Insert? && s.threads[t].n.Claim? && s.threads[t].n.p == 0 && s.size > 0
    ensures Underway(s.threads[t]) && Refused(s, t)
  {
  }

  lemma {:induction false} AllFull(s: State, n: nat)
    requires forall h: nat :: h < n ==> Full(s, h)
    ensures Sum(Fulls(s, n)) == n
  {
    if n > 0 {
      AllFull(s, n - 1);
      assert Fulls(s, n)[..n - 1] == Fulls(s, n - 1);
    }
  }

  /** It comes to the end of its path only if some slot was freed meanwhile. */
  lemma LostMeanwhile(trace: seq<State>, steps: seq<Step>, i: nat, j: nat, t: nat, k: nat)
    requires Run(trace, steps) && i <= j < |trace| && trace[0].size == Pow2(k) && trace[i].occLimit < Pow2(k)
    requires t < |trace[i].threads| && trace[i].threads[t].Insert? && trace[i].threads[t].n.Claim?
    requires trace[i].threads[t].n.p == 0
    requires forall x: nat :: i <= x <= j ==> t < |trace[x].threads| && Underway(trace[x].threads[t])
    requires t < |trace[j].threads| && Underway(trace[j].threads[t]) && trace[j].threads[t].n.Lost?
    ensures exists x: nat :: i <= x < j && Frees(trace[x], steps[x])
  {
    hide Enabled, Apply, Frees, Pow2, Probe;
    if forall x: nat :: i <= x < j ==> !Frees(trace[x], steps[x]) {
      RefusedUpTo(trace, steps, i, j, t, k);
      var s := trace[j];
      var key := s.threads[t].n.ins.key;
      forall h: nat | h < s.size ensures Full(s, h) {
        EverySlotProbed(key, k, h);
        var q: nat :| q < Pow2(k) && Probe(key, q, Pow2(k)) == h;
      }
      AllFull(s, s.size);
      RoomLeft(trace, steps, j);
      SumNonNegative(Seekers(s.threads));
      assert false;
    }
  }

  lemma InsertEnters(s: State, t: nat, n: InsertPc)
    requires Shaped(s) && t < |s.threads| && s.threads[t] == Insert(n) && InBounds(s, s.threads[t])
    requires !Underway(s.threads[t]) && t < |DoGo(s, t).threads| && Underway(DoGo(s, t).threads[t])
    ensures DoGo(s, t).threads[t].n.Claim? && DoGo(s, t).threads[t].n.p == 0
  {
  }

  lemma RemoveDoesNotEnter(s: State, t: nat, p: RemovePc)
    requires Shaped(s) && t < |s.threads| && RemoveInBounds(s, p)
    ensures t < |GoRemove(s, t, p).threads| && !GoRemove(s, t, p).threads[t].Insert?
  {
  }

  lemma EvictDoesNotEnter(s: State, t: nat, v: EvictPc)
    requires Shaped(s) && t < |s.threads|
    ensures t < |GoEvict(s, t, v).threads| && !Underway(GoEvict(s, t, v).threads[t])
  {
  }

  lemma OthersDoNotEnter(s: State, t: nat)
    requires Shaped(s) && t < |s.threads| && InBounds(s, s.threads[t]) && !s.threads[t].Insert?
    ensures t < |DoGo(s, t).threads| && !Underway(DoGo(s, t).threads[t])
  {
    hide GoRemove, GoEvict;
    if s.threads[t].Remove? { RemoveDoesNotEnter(s, t, s.threads[t].r); }
    if s.threads[t].Evict? { EvictDoesNotEnter(s, t, s.threads[t].v); }
  }

  lemma StartDoesNotEnter(s: State, t: nat, call: Call)
    requires Shaped(s) && t < |s.threads| && s.threads[t].Idle? && CallOk(s, call)
    ensures t < |DoStart(s, t, call).threads| && !Underway(DoStart(s, t, call).threads[t])
  {
  }

  /** An insertion sets out at the first slot of its path. */
  lemma Enters(s: State, step: Step, t: nat)
    requires Enabled(s, step) && t < |s.threads| && !Underway(s.threads[t])
    requires t < |Apply(s, step).threads| && Underway(Apply(s, step).threads[t])
    ensures Apply(s, step).threads[t].n.Claim? && Apply(s, step).threads[t].n.p == 0
  {
    hide DoGo, DoStart, Underway;
    StepMoves(s, step);
    if step.t == t {
      match step
      case Start(_, call) => StartDoesNotEnter(s, t, call);
      case Go(_) =>
        match s.threads[t] {
          case Insert(n) => InsertEnters(s, t, n);
          case _ => OthersDoNotEnter(s, t);
        }
    }
  }

  /** When an insertion that is under way at j set out. */
  lemma {:induction false} SetOut(trace: seq<State>, steps: seq<Step>, j: nat, t: nat) returns (i: nat)
    requires Run(trace, steps) && j < |trace| && t < |trace[j].threads| && Underway(trace[j].threads[t])
    ensures i <= j && t < |trace[i].threads| && trace[i].threads[t].Insert? && trace[i].threads[t].n.Claim?
    ensures trace[i].threads[t].n.p == 0
    ensures forall x: nat :: i <= x <= j ==> t < |trace[x].threads| && Underway(trace[x].threads[t])
    decreases j
  {
    hide Enabled, Apply, Underway;
    BusyUnderway(trace[j].threads[t]);
    if j == 0 {
      assert false;
    } else {
      StepMoves(trace[j - 1], steps[j - 1]);
      if Underway(trace[j - 1].threads[t]) {
        i := SetOut(trace, steps, j - 1, t);
      } else {
        Enters(trace[j - 1], steps[j - 1], t);
        i := j;
      }
    }
  }

  /** Size, limit and number of threads stay. */
  lemma {:induction false} RunSame(trace: seq<State>, steps: seq<Step>, i: nat)
    requires Run(trace, steps) && i < |trace|
    ensures trace[i].size == trace[0].size && trace[i].occLimit == trace[0].occLimit
    ensures |trace[i].threads| == |trace[0].threads|
  {
    hide Enabled, Apply;
    if i > 0 {
      RunSame(trace, steps, i - 1);
      StepMoves(trace[i - 1], steps[i - 1]);
    }
  }

  predicate IsLost(s: State, t: nat) {
    t < |s.threads| && s.threads[t].Insert? && s.threads[t].n.Lost?
  }

  /** In a table of a power of two of slots, with a limit below that number, an insertion comes to the end of its path
      without a slot only if some slot was freed after it had set out. */
  lemma LostOnlyIfFreed(trace: seq<State>, steps: seq<Step>, j: nat, t: nat, k: nat) returns (i: nat, x: nat)
    requires Run(trace, steps) && j < |trace| && trace[0].size == Pow2(k) && trace[0].occLimit < Pow2(k)
    requires IsLost(trace[j], t)
    ensures i <= x < j && t < |trace[i].threads| && trace[i].threads[t].Insert? && trace[i].threads[t].n.Claim?
    ensures trace[i].threads[t].n.p == 0
    ensures forall y: nat :: i <= y <= j ==> t < |trace[y].threads| && Underway(trace[y].threads[t])
    ensures Frees(trace[x], steps[x])
  {
    hide Frees, Pow2, Run;
    RunSize(trace, steps);
    i := SetOut(trace, steps, j, t);
    RunSame(trace, steps, i);
    LostMeanwhile(trace, steps, i, j, t, k);
    x :| i <= x < j && Frees(trace[x], steps[x]);
  }

  /** The freed slot was in use. */
  lemma FreedWasFull(s: State, step: Step)
    requires Inv(s) && Frees(s, step)
    ensures Sum(Fulls(s, s.size)) >= 1
  {
    hide Inv, Full;
    var h := s.threads[step.t].r.h;
    InvReady(s, step.t, h, |s.entries|);
    assert Full(s, h) by { MarkedIsFull(s, step.t); }
    SumMember(Fulls(s, s.size), h);
  }

  lemma MarkedIsFull(s: State, t: nat)
    requires Inv(s) && t < |s.threads| && s.threads[t].Remove? && s.threads[t].r.Mark?
    ensures Full(s, s.threads[t].r.h)
  {
    hide Inv;
    InvReady(s, t, s.threads[t].r.h, |s.entries|);
  }

  /** It takes a second thread, and a limit of two. */
  lemma LostNeedsRoom(trace: seq<State>, steps: seq<Step>, j: nat, t: nat, k: nat)
    requires Run(trace, steps) && j < |trace| && trace[0].size == Pow2(k) && trace[0].occLimit < Pow2(k)
    requires IsLost(trace[j], t)
    ensures trace[0].occLimit >= 2 && |trace[0].threads| >= 2
  {
    hide Run, Pow2, Inv, Full, Fulls;
    var i, x := LostOnlyIfFreed(trace, steps, j, t, k);
    RunSize(trace, steps);
    var s := trace[x];
    assert Underway(s.threads[t]);
    RunSame(trace, steps, x);
    RunInv(trace, steps, x);
    RoomLeft(trace, steps, x);
    FreedWasFull(s, steps[x]);
    BusyUnderway(s.threads[t]);
    SumMember(Seekers(s.threads), t);
  }

  lemma RunSize(trace: seq<State>, steps: seq<Step>)
    requires Run(trace, steps)
    ensures |trace| == |steps| + 1
  {
  }

  lemma LostStep(s: State, step: Step, t: nat)
    requires Inv(s) && Enabled(s, step) && IsLost(s, t)
    ensures IsLost(Apply(s, step), t)
  {
    hide Inv, Enabled;
    OnlyOwnSteps(s, step, t);
    if step == Go(t) { LostGo(s, t); }
  }

  lemma LostGo(s: State, t: nat)
    requires Inv(s) && IsLost(s, t)
    ensures Enabled(s, Go(t)) && IsLost(Apply(s, Go(t)), t)
  {
    assert ThreadOk(s, t);
  }

  /** And then it is lost for good: it takes back displacements for ever. */
  lemma {:induction false} LostForEver(trace: seq<State>, steps: seq<Step>, i: nat, j: nat, t: nat)
    requires Run(trace, steps) && i <= j < |trace| && IsLost(trace[i], t)
    ensures IsLost(trace[j], t)
    decreases j
  {
    hide Inv, Apply, Enabled;
    if j > i {
      LostForEver(trace, steps, i, j - 1, t);
      RunInv(trace, steps, j - 1);
      LostStep(trace[j - 1], steps[j - 1], t);
    }
  }
}
