/**
 The two totals of the clock table, usage_ and occupancy_, on every interleaving.

 Both are exact at every atomic step once each thread's own share is counted in: what it has charged for an
 entry that is not stored yet, what it has freed and not subtracted yet, and what it grabbed for an eviction
 that is still going on.  With strict limits and one capacity the usage never goes above it.
 */
module ClockAccounting {
  import opened Basics
  import opened ClockProbe
  import opened ClockMachine
  import opened ClockOwnership
  import opened Sums

  // ---------------------------------------------------------------- shares

  function EvUsage(ev: Ev): int {
    ev.grabbed + ev.freed
  }

  function EvSlots(ev: Ev): int {
    ev.count + B(ev.ins.table)
  }

  /** What usage_ includes on behalf of a thread, beyond the charges of stored entries. */
  function UsageDue(pc: Pc): int {
    match pc
    case Evict(v) => EvUsage(v.ev)
    case Remove(Roll(_, _, _, cont)) => if cont.ToEvict? then EvUsage(cont.ev) else 0
    case Remove(Dispose(_, _, cont)) => if cont.ToEvict? then EvUsage(cont.ev) else 0
    case Remove(Mark(_, c, cont)) => if cont.ToEvict? then EvUsage(cont.ev) else c
    case Remove(Reclaim1(_, c, _)) => c
    case Remove(Reclaim2(_, c, _)) => c
    case Remove(ReclaimAlone(c)) => c
    case Insert(n) => InsertUsage(n)
    case _ => 0
  }

  function InsertUsage(n: InsertPc): int {
    match n
    case StrictAdjust(_, _, grabbed, freed, _) => grabbed + freed
    case LooseAdd(_, freed) => freed
    case _ => if n.StrictCharge? || n.StrictFail? || n.LooseLoad? || n.LooseFail? || n.LooseForce? || n.DropProto?
              then 0 else n.ins.c
  }

  /** What occupancy_ includes on behalf of a thread, beyond the entries stored in the table. */
  function SlotsDue(pc: Pc): int {
    match pc
    case Evict(v) => EvSlots(v.ev)
    case Remove(Roll(_, _, _, cont)) => if cont.ToEvict? then EvSlots(cont.ev) else 0
    case Remove(Dispose(_, _, cont)) => if cont.ToEvict? then EvSlots(cont.ev) else 0
    case Remove(Mark(_, _, cont)) => if cont.ToEvict? then EvSlots(cont.ev) else 1
    case Remove(Reclaim1(_, _, _)) => 1
    case Insert(n) => if n.LooseForce? || n.Uncharge? || n.DropProto? || n.Alone? then 0 else B(n.ins.table)
    case _ => 0
  }

  /** What a stored entry adds to usage_ and to occupancy_. */
  function Worth(x: Entry): int {
    if x.loc.InHandle? then x.charge else 0
  }

  function Slots(x: Entry, size: nat): int {
    B(x.loc.InHandle? && x.loc.h < size)
  }

  function Charges(es: seq<Entry>): seq<int> {
    seq(|es|, i requires 0 <= i < |es| => Worth(es[i]))
  }

  function Taken(es: seq<Entry>, size: nat): seq<int> {
    seq(|es|, i requires 0 <= i < |es| => Slots(es[i], size))
  }

  function Usages(ths: seq<Pc>): seq<int> {
    seq(|ths|, i requires 0 <= i < |ths| => UsageDue(ths[i]))
  }

  function Slotses(ths: seq<Pc>): seq<int> {
    seq(|ths|, i requires 0 <= i < |ths| => SlotsDue(ths[i]))
  }

  predicate Books(s: State) {
    && s.usage == s.base + Sum(Charges(s.entries)) + Sum(Usages(s.threads))
    && s.occupancy == Sum(Taken(s.entries, s.size)) + Sum(Slotses(s.threads))
  }

  // ---------------------------------------------------------------- one thread moves

  /** Thread t goes on; only entry e0 changes; the totals change by what t's share and e0's worth do. */
  ghost predicate Moves(s: State, r: State, t: nat, e0: nat) {
    && t < |s.threads| && |r.threads| == |s.threads| && r.threads == s.threads[t := r.threads[t]]
    && e0 < |s.entries| && |r.entries| == |s.entries| && r.entries == s.entries[e0 := r.entries[e0]]
    && r.size == s.size && r.base == s.base
    && r.usage - s.usage ==
       Worth(r.entries[e0]) - Worth(s.entries[e0]) + UsageDue(r.threads[t]) - UsageDue(s.threads[t])
    && r.occupancy - s.occupancy ==
       Slots(r.entries[e0], s.size) - Slots(s.entries[e0], s.size) + SlotsDue(r.threads[t]) - SlotsDue(s.threads[t])
  }

  /** The same with no entry changing. */
  ghost predicate Shifts(s: State, r: State, t: nat) {
    && t < |s.threads| && |r.threads| == |s.threads| && r.threads == s.threads[t := r.threads[t]]
    && r.entries == s.entries && r.size == s.size && r.base == s.base
    && r.usage - s.usage == UsageDue(r.threads[t]) - UsageDue(s.threads[t])
    && r.occupancy - s.occupancy == SlotsDue(r.threads[t]) - SlotsDue(s.threads[t])
  }

  lemma DuesAfter(ths: seq<Pc>, t: nat, now: Pc)
    requires t < |ths|
    ensures Sum(Usages(ths[t := now])) == Sum(Usages(ths)) - UsageDue(ths[t]) + UsageDue(now)
    ensures Sum(Slotses(ths[t := now])) == Sum(Slotses(ths)) - SlotsDue(ths[t]) + SlotsDue(now)
  {
    assert Usages(ths[t := now]) == Usages(ths)[t := UsageDue(now)];
    assert Slotses(ths[t := now]) == Slotses(ths)[t := SlotsDue(now)];
    SumUpdate(Usages(ths), t, UsageDue(now));
    SumUpdate(Slotses(ths), t, SlotsDue(now));
  }

  lemma WorthAfter(es: seq<Entry>, size: nat, e: nat, x: Entry)
    requires e < |es|
    ensures Sum(Charges(es[e := x])) == Sum(Charges(es)) - Worth(es[e]) + Worth(x)
    ensures Sum(Taken(es[e := x], size)) == Sum(Taken(es, size)) - Slots(es[e], size) + Slots(x, size)
  {
    assert Charges(es[e := x]) == Charges(es)[e := Worth(x)];
    assert Taken(es[e := x], size) == Taken(es, size)[e := Slots(x, size)];
    SumUpdate(Charges(es), e, Worth(x));
    SumUpdate(Taken(es, size), e, Slots(x, size));
  }

  lemma MovesKeepBooks(s: State, r: State, t: nat, e0: nat)
    requires Books(s) && Moves(s, r, t, e0)
    ensures Books(r)
  {
    hide Charges, Taken, Usages, Slotses, UsageDue, SlotsDue, Worth, Slots;
    DuesAfter(s.threads, t, r.threads[t]);
    WorthAfter(s.entries, s.size, e0, r.entries[e0]);
  }

  lemma ShiftsKeepBooks(s: State, r: State, t: nat)
    requires Books(s) && Shifts(s, r, t)
    ensures Books(r)
  {
    hide Charges, Taken, Usages, Slotses, UsageDue, SlotsDue;
    DuesAfter(s.threads, t, r.threads[t]);
  }

  // ---------------------------------------------------------------- what threads remember

  /** What an eviction grabbed and what it still needs make up the charge. */
  predicate EvAdds(ev: Ev) {
    if ev.ins.strict then ev.grabbed + ev.need == ev.ins.c else ev.grabbed == 0
  }

  predicate Adds(pc: Pc) {
    match pc
    case Evict(v) => EvAdds(v.ev)
    case Remove(Roll(_, _, _, ToEvict(ev))) => EvAdds(ev)
    case Remove(Dispose(_, _, ToEvict(ev))) => EvAdds(ev)
    case Remove(Mark(_, _, ToEvict(ev))) => EvAdds(ev)
    case Insert(StrictAdjust(ins, need, grabbed, _, _)) => grabbed + need == ins.c
    case Insert(StrictCharge(ins)) => ins.strict
    case Insert(LooseLoad(ins)) => !ins.strict
    case Insert(LooseFail(ins)) => ins.table
    case Insert(Lost(ins, _, _)) => ins.table
    case Insert(Back(ins, _, _)) => ins.table
    case Insert(n) => Placing(n) ==> n.ins.table
    case _ => true
  }

  ghost predicate AllAdd(s: State) {
    forall t: nat {:trigger s.threads[t]} :: t < |s.threads| ==> Adds(s.threads[t])
  }

  ghost predicate Account(s: State) {
    Inv(s) && Books(s) && AllAdd(s)
  }

  // ---------------------------------------------------------------- every step balances

  lemma LookupBalances(s: State, t: nat, f: FindPc)
    requires Shaped(s) && t < |s.threads| && s.threads[t] == Lookup(f) && f.h < s.size
    ensures Shifts(s, GoLookup(s, t, f), t) && Adds(GoLookup(s, t, f).threads[t])
  {
  }

  lemma EraseBalances(s: State, t: nat, f: FindPc)
    requires Shaped(s) && t < |s.threads| && s.threads[t] == Erase(f) && f.h < s.size
    ensures Shifts(s, GoErase(s, t, f), t) && Adds(GoErase(s, t, f).threads[t])
  {
  }

  lemma TakeBalances(s: State, t: nat, k: TakePc)
    requires Shaped(s) && t < |s.threads| && s.threads[t] == Take(k) && InBounds(s, s.threads[t])
    ensures Shifts(s, GoTake(s, t, k), t) && Adds(GoTake(s, t, k).threads[t])
  {
  }

  lemma SeenBalances(s: State, t: nat, ev: Ev, seen: Meta)
    requires Shaped(s) && t < |s.threads| && s.threads[t] == Evict(Seen(ev, seen)) && EvAdds(ev)
    ensures var r := GoEvict(s, t, Seen(ev, seen)); Shifts(s, r, t) && Adds(r.threads[t])
  {
  }

  lemma EvictBalances(s: State, t: nat, v: EvictPc)
    requires Shaped(s) && t < |s.threads| && s.threads[t] == Evict(v) && ThreadOk(s, t) && Adds(s.threads[t])
    ensures Shifts(s, GoEvict(s, t, v), t) && Adds(GoEvict(s, t, v).threads[t])
  {
    if v.Seen? { SeenBalances(s, t, v.ev, v.seen); }
  }

  lemma ReclaimBalances(s: State, t: nat, p: RemovePc)
    requires Shaped(s) && t < |s.threads| && s.threads[t] == Remove(p) && ThreadOk(s, t) && Adds(s.threads[t])
    requires !p.Dispose? && !p.DisposeAlone?
    ensures RemoveInBounds(s, p) && Shifts(s, GoRemove(s, t, p), t) && Adds(GoRemove(s, t, p).threads[t])
  {
  }

  lemma DisposeBalances(s: State, t: nat, p: RemovePc)
    requires Shaped(s) && t < |s.threads| && s.threads[t] == Remove(p) && ThreadOk(s, t) && Adds(s.threads[t])
    requires p.Dispose? || p.DisposeAlone?
    ensures RemoveInBounds(s, p) && Moves(s, GoRemove(s, t, p), t, p.e) && Adds(GoRemove(s, t, p).threads[t])
  {
  }

  lemma StrictBalances(s: State, t: nat, n: InsertPc)
    requires Shaped(s) && t < |s.threads| && s.threads[t] == Insert(n) && Adds(s.threads[t])
    requires n.ins.e < |s.entries| && (n.StrictCharge? || n.StrictAdjust?)
    ensures Shifts(s, GoCharge(s, t, n), t) && Adds(GoCharge(s, t, n).threads[t])
  {
  }

  lemma LooseBalances(s: State, t: nat, n: InsertPc)
    requires Shaped(s) && t < |s.threads| && s.threads[t] == Insert(n) && Adds(s.threads[t])
    requires n.ins.e < |s.entries| && (n.LooseLoad? || n.LooseAdd? || n.LooseFail? || n.LooseForce?)
    ensures Shifts(s, GoCharge(s, t, n), t) && Adds(GoCharge(s, t, n).threads[t])
  {
  }

  /** The steps of placing that change a slot. */
  lemma SlotBalances(s: State, t: nat, n: InsertPc)
    requires Shaped(s) && t < |s.threads| && s.threads[t] == Insert(n) && Adds(s.threads[t])
    requires (n.Boost? || n.Match? || n.Unboost?) && n.h < s.size && n.ins.e < |s.entries|
    ensures Shifts(s, GoPlace(s, t, n), t) && Adds(GoPlace(s, t, n).threads[t])
  {
  }

  lemma PlaceBalances(s: State, t: nat, n: InsertPc)
    requires Shaped(s) && t < |s.threads| && s.threads[t] == Insert(n) && Adds(s.threads[t])
    requires Placing(n) && !n.Publish? && n.h < s.size && n.ins.e < |s.entries|
    ensures Shifts(s, GoPlace(s, t, n), t) && Adds(GoPlace(s, t, n).threads[t])
  {
    if n.Boost? || n.Match? || n.Unboost? { SlotBalances(s, t, n); }
  }

  lemma BackBalances(s: State, t: nat, n: InsertPc)
    requires Shaped(s) && t < |s.threads| && s.threads[t] == Insert(n)
    requires InBounds(s, s.threads[t]) && Adds(s.threads[t])
    requires n.Lost? || n.Back? || n.Uncharge?
    ensures Shifts(s, GoBack(s, t, n), t) && Adds(GoBack(s, t, n).threads[t])
  {
  }

  /** The steps at which an inserted entry goes to its place: published, standalone, dropped or handed back. */
  lemma SettleBalances(s: State, t: nat, n: InsertPc)
    requires Shaped(s) && t < |s.threads| && s.threads[t] == Insert(n) && ThreadOk(s, t) && Adds(s.threads[t])
    requires n.StrictFail? || n.Publish? || n.DropProto? || n.Alone?
    ensures Moves(s, DoGo(s, t), t, n.ins.e) && Adds(DoGo(s, t).threads[t])
  {
  }

  lemma InsertBalances(s: State, t: nat, n: InsertPc)
    requires Shaped(s) && t < |s.threads| && s.threads[t] == Insert(n)
    requires ThreadOk(s, t) && Adds(s.threads[t]) && Books(s)
    ensures Books(DoGo(s, t)) && |DoGo(s, t).threads| == |s.threads|
    ensures DoGo(s, t).threads == s.threads[t := DoGo(s, t).threads[t]] && Adds(DoGo(s, t).threads[t])
  {
    var r := DoGo(s, t);
    if n.StrictFail? || n.Publish? || n.DropProto? || n.Alone? {
      SettleBalances(s, t, n);
      MovesKeepBooks(s, r, t, n.ins.e);
    } else {
      if Placing(n) { PlaceBalances(s, t, n); }
      else if Backing(n) { BackBalances(s, t, n); }
      else if n.StrictCharge? || n.StrictAdjust? { StrictBalances(s, t, n); }
      else { LooseBalances(s, t, n); }
      ShiftsKeepBooks(s, r, t);
    }
  }

  lemma GoBalances(s: State, t: nat)
    requires Shaped(s) && t < |s.threads| && ThreadOk(s, t) && Adds(s.threads[t]) && Books(s)
    ensures Books(DoGo(s, t)) && |DoGo(s, t).threads| == |s.threads|
    ensures DoGo(s, t).threads == s.threads[t := DoGo(s, t).threads[t]] && Adds(DoGo(s, t).threads[t])
  {
    var r := DoGo(s, t);
    match s.threads[t]
    case Idle =>
    case Lookup(f) => LookupBalances(s, t, f); ShiftsKeepBooks(s, r, t);
    case Erase(f) => EraseBalances(s, t, f); ShiftsKeepBooks(s, r, t);
    case Take(k) => TakeBalances(s, t, k); ShiftsKeepBooks(s, r, t);
    case Evict(v) => EvictBalances(s, t, v); ShiftsKeepBooks(s, r, t);
    case Remove(p) =>
      if p.Dispose? || p.DisposeAlone? {
        DisposeBalances(s, t, p);
        MovesKeepBooks(s, r, t, p.e);
      } else {
        ReclaimBalances(s, t, p);
        ShiftsKeepBooks(s, r, t);
      }
    case Insert(n) => InsertBalances(s, t, n);
  }

  lemma WorthOfNew(es: seq<Entry>, size: nat, x: Entry)
    requires !x.loc.InHandle?
    ensures Sum(Charges(es + [x])) == Sum(Charges(es)) && Sum(Taken(es + [x], size)) == Sum(Taken(es, size))
  {
    assert Charges(es + [x]) == Charges(es) + [0];
    assert Taken(es + [x], size) == Taken(es, size) + [0];
    SumAppend(Charges(es), 0);
    SumAppend(Taken(es, size), 0);
  }

  lemma StartInsertBalances(s: State, t: nat, ins: Ins)
    requires t < |s.threads| && s.threads[t].Idle? && Books(s)
    ensures Books(DoStartInsert(s, t, ins)) && Adds(ChargePc(ins))
  {
    hide Charges, Taken, Usages, Slotses;
    WorthOfNew(s.entries, s.size, Entry(ins.key, ins.c, With(t), 0));
    DuesAfter(s.threads, t, ChargePc(ins));
  }

  lemma StartBalances(s: State, t: nat, call: Call)
    requires Shaped(s) && t < |s.threads| && s.threads[t].Idle? && CallOk(s, call) && Books(s)
    ensures Books(DoStart(s, t, call)) && |DoStart(s, t, call).threads| == |s.threads|
    ensures DoStart(s, t, call).threads == s.threads[t := DoStart(s, t, call).threads[t]]
    ensures Adds(DoStart(s, t, call).threads[t])
  {
    var r := DoStart(s, t, call);
    match call
    case CallInsert(key, c, countdown, wantsHandle, capacity, strict) =>
      StartInsertBalances(s, t, Ins(|s.entries|, key, c, countdown, wantsHandle, true, false,
                                    s.occupancy >= s.occLimit, capacity, strict));
    case CallStandalone(key, c, uncharged, capacity, strict) =>
      StartInsertBalances(s, t, Ins(|s.entries|, key, c, 1, true, false, uncharged, false, capacity, strict));
    case _ => ShiftsKeepBooks(s, r, t);
  }

  lemma StepAccount(s: State, step: Step)
    requires Account(s) && Enabled(s, step)
    ensures Books(Apply(s, step)) && AllAdd(Apply(s, step))
  {
    hide Inv, Books, DoStart, DoGo, Adds;
    InvThread(s, step.t);
    match step
    case Start(t, call) => StartBalances(s, t, call);
    case Go(t) => GoBalances(s, t);
  }

  lemma {:induction false} RunAccount(trace: seq<State>, steps: seq<Step>, i: nat)
    requires Run(trace, steps) && i < |trace|
    ensures Account(trace[i])
  {
    hide Inv, Enabled, Apply;
    RunInv(trace, steps, i);
    if i == 0 {
      var s := trace[0];
      SumZero(Usages(s.threads));
      SumZero(Slotses(s.threads));
    } else {
      RunAccount(trace, steps, i - 1);
      StepAccount(trace[i - 1], steps[i - 1]);
    }
  }

  // ---------------------------------------------------------------- what holds on every run

  /** At every atomic step usage_ is the table's own charge, the charges of live entries (in the table or
      standalone) and the threads' shares; occupancy_ is the entries in the table and the threads' shares. */
  lemma TotalsExact(trace: seq<State>, steps: seq<Step>, i: nat)
    requires Run(trace, steps) && i < |trace|
    ensures trace[i].usage == trace[i].base + Sum(Charges(trace[i].entries)) + Sum(Usages(trace[i].threads))
    ensures trace[i].occupancy == Sum(Taken(trace[i].entries, trace[i].size)) + Sum(Slotses(trace[i].threads))
  {
    RunAccount(trace, steps, i);
  }

  /** With every thread idle nothing is left over from failed, reverted or lost operations. */
  lemma QuietTotals(trace: seq<State>, steps: seq<Step>, i: nat)
    requires Run(trace, steps) && i < |trace|
    requires forall t: nat :: t < |trace[i].threads| ==> trace[i].threads[t].Idle?
    ensures trace[i].usage == trace[i].base + Sum(Charges(trace[i].entries))
    ensures trace[i].occupancy == Sum(Taken(trace[i].entries, trace[i].size))
  {
    RunAccount(trace, steps, i);
    SumZero(Usages(trace[i].threads));
    SumZero(Slotses(trace[i].threads));
  }

  // ---------------------------------------------------------------- the strict limit

  /** Every insertion is made under the strict limit with the same capacity. */
  predicate StrictCall(call: Call, capacity: nat) {
    match call
    case CallInsert(_, _, _, _, c, strict) => strict && c == capacity
    case CallStandalone(_, _, _, c, strict) => strict && c == capacity
    case _ => true
  }

  predicate StrictStep(step: Step, capacity: nat) {
    step.Start? ==> StrictCall(step.call, capacity)
  }

  predicate StrictIns(ins: Ins, capacity: nat) {
    ins.strict && ins.capacity == capacity
  }

  predicate StrictPc(pc: Pc, capacity: nat) {
    && (InsOf(pc).Some? ==> StrictIns(InsOf(pc).value, capacity))
    && match pc
       case Evict(v) => v.ev.grabbed >= 0
       case Remove(Roll(_, _, _, ToEvict(ev))) => ev.grabbed >= 0
       case Remove(Dispose(_, _, ToEvict(ev))) => ev.grabbed >= 0
       case Remove(Mark(_, _, ToEvict(ev))) => ev.grabbed >= 0
       case Insert(n) => !n.LooseLoad? && !n.LooseAdd? && !n.LooseFail? && !n.LooseForce? &&
                         (n.StrictAdjust? ==> n.grabbed >= 0)
       case _ => true
  }

  ghost predicate AllStrict(s: State, capacity: nat) {
    s.usage <= capacity && forall t: nat {:trigger s.threads[t]} :: t < |s.threads| ==> StrictPc(s.threads[t], capacity)
  }

  /** Placing an entry leaves the usage alone. */
  lemma StrictPlace(s: State, t: nat, n: InsertPc, capacity: nat)
    requires Shaped(s) && t < |s.threads| && InBounds(s, s.threads[t]) && s.threads[t] == Insert(n) && Placing(n)
    requires StrictPc(s.threads[t], capacity)
    ensures GoPlace(s, t, n).usage == s.usage && |GoPlace(s, t, n).threads| == |s.threads|
    ensures GoPlace(s, t, n).threads == s.threads[t := GoPlace(s, t, n).threads[t]]
    ensures StrictPc(GoPlace(s, t, n).threads[t], capacity)
  {
  }

  lemma StrictBack(s: State, t: nat, n: InsertPc, capacity: nat)
    requires Shaped(s) && t < |s.threads| && InBounds(s, s.threads[t]) && s.threads[t] == Insert(n) && Backing(n)
    requires StrictPc(s.threads[t], capacity)
    ensures GoBack(s, t, n).usage <= s.usage && |GoBack(s, t, n).threads| == |s.threads|
    ensures GoBack(s, t, n).threads == s.threads[t := GoBack(s, t, n).threads[t]]
    ensures StrictPc(GoBack(s, t, n).threads[t], capacity)
  {
  }

  lemma StrictInsert(s: State, t: nat, n: InsertPc, capacity: nat)
    requires Shaped(s) && t < |s.threads| && InBounds(s, s.threads[t]) && s.threads[t] == Insert(n)
    requires StrictPc(s.threads[t], capacity) && s.usage <= capacity
    ensures DoGo(s, t).usage <= capacity && |DoGo(s, t).threads| == |s.threads|
    ensures DoGo(s, t).threads == s.threads[t := DoGo(s, t).threads[t]] && StrictPc(DoGo(s, t).threads[t], capacity)
  {
    hide GoPlace, GoBack;
    if Placing(n) { StrictPlace(s, t, n, capacity); } else if Backing(n) { StrictBack(s, t, n, capacity); }
  }

  lemma StrictEvict(s: State, t: nat, v: EvictPc, capacity: nat)
    requires Shaped(s) && t < |s.threads| && s.threads[t] == Evict(v) && StrictPc(s.threads[t], capacity)
    ensures GoEvict(s, t, v).usage == s.usage && |GoEvict(s, t, v).threads| == |s.threads|
    ensures GoEvict(s, t, v).threads == s.threads[t := GoEvict(s, t, v).threads[t]]
    ensures StrictPc(GoEvict(s, t, v).threads[t], capacity)
  {
  }

  lemma StrictRemove(s: State, t: nat, p: RemovePc, capacity: nat)
    requires Shaped(s) && t < |s.threads| && s.threads[t] == Remove(p)
    requires ThreadOk(s, t) && StrictPc(s.threads[t], capacity)
    ensures RemoveInBounds(s, p) && GoRemove(s, t, p).usage <= s.usage && |GoRemove(s, t, p).threads| == |s.threads|
    ensures GoRemove(s, t, p).threads == s.threads[t := GoRemove(s, t, p).threads[t]]
    ensures StrictPc(GoRemove(s, t, p).threads[t], capacity)
  {
  }

  lemma StrictFind(s: State, t: nat, f: FindPc, capacity: nat)
    requires Shaped(s) && t < |s.threads| && f.h < s.size
    ensures forall r | r == GoLookup(s, t, f) || r == GoErase(s, t, f) ::
      r.usage == s.usage && |r.threads| == |s.threads| && r.threads == s.threads[t := r.threads[t]] &&
      StrictPc(r.threads[t], capacity)
  {
  }

  lemma StrictTake(s: State, t: nat, k: TakePc, capacity: nat)
    requires Shaped(s) && t < |s.threads| && InBounds(s, Take(k))
    ensures GoTake(s, t, k).usage == s.usage && |GoTake(s, t, k).threads| == |s.threads|
    ensures GoTake(s, t, k).threads == s.threads[t := GoTake(s, t, k).threads[t]]
    ensures StrictPc(GoTake(s, t, k).threads[t], capacity)
  {
  }

  lemma StrictGo(s: State, t: nat, capacity: nat)
    requires Shaped(s) && t < |s.threads| && ThreadOk(s, t)
    requires StrictPc(s.threads[t], capacity) && s.usage <= capacity
    ensures DoGo(s, t).usage <= capacity && |DoGo(s, t).threads| == |s.threads|
    ensures DoGo(s, t).threads == s.threads[t := DoGo(s, t).threads[t]] && StrictPc(DoGo(s, t).threads[t], capacity)
  {
    hide GoLookup, GoErase, GoTake, GoRemove, GoEvict, GoCharge, GoPlace, GoBack, StrictPc;
    match s.threads[t]
    case Insert(n) => StrictInsert(s, t, n, capacity);
    case Evict(v) => StrictEvict(s, t, v, capacity);
    case Remove(p) => StrictRemove(s, t, p, capacity);
    case Take(k) => StrictTake(s, t, k, capacity);
    case Lookup(f) => StrictFind(s, t, f, capacity);
    case Erase(f) => StrictFind(s, t, f, capacity);
    case Idle =>
  }

  lemma StrictStart(s: State, t: nat, call: Call, capacity: nat)
    requires Shaped(s) && t < |s.threads| && s.threads[t].Idle? && CallOk(s, call) && StrictCall(call, capacity)
    ensures DoStart(s, t, call).usage == s.usage && |DoStart(s, t, call).threads| == |s.threads|
    ensures DoStart(s, t, call).threads == s.threads[t := DoStart(s, t, call).threads[t]]
    ensures StrictPc(DoStart(s, t, call).threads[t], capacity)
  {
  }

  lemma StepStrict(s: State, step: Step, capacity: nat)
    requires Inv(s) && Enabled(s, step) && StrictStep(step, capacity) && AllStrict(s, capacity)
    ensures AllStrict(Apply(s, step), capacity)
  {
    hide Inv, DoStart, DoGo, StrictPc;
    InvThread(s, step.t);
    match step
    case Start(t, call) => StrictStart(s, t, call, capacity);
    case Go(t) => StrictGo(s, t, capacity);
  }

  lemma {:induction false} RunStrict(trace: seq<State>, steps: seq<Step>, capacity: nat, i: nat)
    requires Run(trace, steps) && i < |trace| && trace[0].base <= capacity
    requires forall j :: 0 <= j < |steps| ==> StrictStep(steps[j], capacity)
    ensures AllStrict(trace[i], capacity)
  {
    hide Inv, Enabled, Apply, StrictStep;
    if i > 0 {
      RunStrict(trace, steps, capacity, i - 1);
      RunInv(trace, steps, i - 1);
      assert StrictStep(steps[i - 1], capacity);
      StepStrict(trace[i - 1], steps[i - 1], capacity);
    }
  }

  /** Strict limits, one capacity, table metadata within it: usage_ never exceeds the capacity, on any
      interleaving, rollbacks and failed insertions included. */
  lemma NeverOverCapacity(trace: seq<State>, steps: seq<Step>, capacity: nat, i: nat)
    requires Run(trace, steps) && i < |trace| && trace[0].base <= capacity
    requires forall j :: 0 <= j < |steps| ==> StrictStep(steps[j], capacity)
    ensures trace[i].usage <= capacity
    ensures trace[i].base + Sum(Charges(trace[i].entries)) + Sum(Usages(trace[i].threads)) <= capacity
  {
    RunStrict(trace, steps, capacity, i);
    RunAccount(trace, steps, i);
  }
}
