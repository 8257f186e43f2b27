/**
 HyperClockTable as a concurrent machine: any number of threads run Insert, CreateStandalone, Lookup, Ref,
 Release, Erase and EraseUnRefEntries, and every atomic operation on a slot's meta word, a displacement
 count, usage_, occupancy_ or clock_pointer_ is one step.

 Handles are numbered: those below `size` are the slots of the table, the others are standalone handles in
 the order in which they were allocated.  Entries (the data that callers hand in) are numbered too; a
 handle's data fields hold one entry.

 The acquire and release counters are mathematical integers; they agree with the two 30-bit fields of the
 meta word as long as the counters stay below 2^29, where CorrectNearOverflow changes nothing (see module
 ClockMeta); its access to the word is a step all the same (see module ClockCorrection).  The optimistic
 load-then-compare_exchange loop on usage_ is one step: its effect is that of the successful exchange.
 */
module ClockMachine {
  import opened Basics
  import opened ClockProbe

  // ---------------------------------------------------------------- handles, entries

  /** Slot states; Deleted is that of a standalone handle after `delete h`. */
  datatype SlotState = Empty | Construction | Visible | Invisible | Deleted

  datatype Meta = Meta(st: SlotState, acq: int, rel: int)

  datatype Handle = Handle(meta: Meta, entry: nat, disp: int)

  /** Where an entry is: with the thread inserting it, in a handle, disposed of, or handed back to the caller
      of an Insert that failed. */
  datatype Loc = With(t: nat) | InHandle(h: nat) | Gone | Returned

  /** disposals counts calls of the deleter (or of an eviction callback that takes the object over). */
  datatype Entry = Entry(key: Key, charge: nat, loc: Loc, disposals: nat)

  predicate Shareable(m: Meta) {
    m.st.Visible? || m.st.Invisible?
  }

  function Refcount(m: Meta): int {
    m.acq - m.rel
  }

  // ---------------------------------------------------------------- thread positions

  /** The arguments of one Insert or CreateStandalone call, and its entry. */
  datatype Ins = Ins(e: nat, key: Key, c: nat, countdown: nat, wantsHandle: bool, table: bool,
                     uncharged: bool, needSlot: bool, capacity: nat, strict: bool)

  /** One run of Evict: what was asked for, what was freed so far, where the clock hand is. */
  datatype Ev = Ev(ins: Ins, need: nat, request: nat, grabbed: int, freed: nat, count: nat,
                   ptr: nat, limit: nat, i: nat)

  /** What to do after an entry has been removed. */
  datatype Cont = ToIdle | ToErase(key: Key, p: nat, h: nat) | ToAll(i: nat) | ToEvict(ev: Ev)

  datatype FindPc =
    | Acquire(key: Key, p: nat, h: nat)   // about to increment the acquire counter of h, the slot of probe p
    | Compare(key: Key, p: nat, h: nat)   // has a reference to a visible entry
    | Undo(key: Key, p: nat, h: nat)      // has a reference to take back
    | Next(key: Key, p: nat, h: nat)      // about to look at the displacement count

  datatype TakePc =
    | Hidden(key: Key, p: nat, h: nat, seen: Meta)  // Erase: made the entry invisible, has a reference
    | Released(h: nat, seen: Meta)           // Release: gave its reference back
    | Correct(h: nat, seen: Meta)            // Release: CorrectNearOverflow is next
    | AllAt(i: nat)                          // EraseUnRefEntries: about to load slot i
    | AllSeen(i: nat, seen: Meta)            //   ... has loaded it

  datatype RemovePc =
    | Roll(h: nat, e: nat, cur: nat, cont: Cont)    // owns h; taking back displacements from slot cur on
    | Dispose(h: nat, e: nat, cont: Cont)           // owns h; about to free its data
    | Mark(h: nat, c: nat, cont: Cont)              // owns h; about to mark it empty
    | Reclaim1(h: nat, c: nat, cont: Cont)          // about to lower occupancy_
    | Reclaim2(h: nat, c: nat, cont: Cont)          // about to lower usage_
    | RollAfter(h: nat, key: Key, cur: nat, p: nat) // Erase: the slot is released, displacements are not
    | DisposeAlone(h: nat, e: nat)                  // owns a standalone handle
    | ReclaimAlone(c: nat)

  datatype EvictPc =
    | Hand(ev: Ev)                          // about to advance clock_pointer_
    | At(ev: Ev)                            // about to load the slot under the hand
    | Seen(ev: Ev, seen: Meta)              // about to compare-and-exchange
    | Done(ev: Ev)                          // about to lower occupancy_ by what was evicted

  datatype InsertPc =
    | StrictCharge(ins: Ins)
    | StrictAdjust(ins: Ins, need: nat, grabbed: int, freed: nat, none: bool)
    | StrictFail(ins: Ins)
    | LooseLoad(ins: Ins)
    | LooseAdd(ins: Ins, freed: nat)
    | LooseFail(ins: Ins)
    | LooseForce(ins: Ins)
    | Claim(ins: Ins, p: nat, h: nat)     // about to set the occupied bit of h, the slot of probe p
    | Write(ins: Ins, p: nat, h: nat)     // owns h; about to write the data
    | Publish(ins: Ins, p: nat, h: nat)   // owns h; about to make it visible
    | Boost(ins: Ins, p: nat, h: nat)     // saw a visible entry; about to acquire
    | Match(ins: Ins, p: nat, h: nat)     // has `countdown` references to a visible entry
    | Unboost(ins: Ins, p: nat, h: nat)   // has `countdown` references to take back
    | Displace(ins: Ins, p: nat, h: nat)  // about to count a displacement
    | Lost(ins: Ins, cur: nat, n: nat)    // every slot refused: Rollback towards a null handle, n rounds so far
    | Back(ins: Ins, h: nat, cur: nat)    // found an entry for the key in h; Rollback
    | Uncharge(ins: Ins)
    | DropProto(ins: Ins)
    | Alone(ins: Ins)                // about to allocate a standalone handle

  datatype Pc = Idle | Lookup(f: FindPc) | Erase(g: FindPc) | Take(k: TakePc) | Remove(r: RemovePc)
              | Evict(v: EvictPc) | Insert(n: InsertPc)

  datatype State = State(
    size: nat,                        // number of table slots
    occLimit: nat,                    // occupancy_limit_
    base: nat,                        // metadata charge of the table itself
    handles: seq<Handle>,
    entries: seq<Entry>,
    users: multiset<(nat, nat)>,      // references held by callers: (handle, entry)
    threads: seq<Pc>,
    usage: int,
    occupancy: int,
    clock: nat)

  /** What a caller may start on an idle thread. */
  datatype Call =
    | CallLookup(key: Key)
    | CallErase(key: Key)
    | CallRef(h: nat, e: nat)
    | CallRelease(h: nat, e: nat, useful: bool, eraseIfLast: bool)
    | CallEraseAll
    | CallInsert(key: Key, charge: nat, countdown: nat, wantsHandle: bool, capacity: nat, strict: bool)
    | CallStandalone(key: Key, charge: nat, uncharged: bool, capacity: nat, strict: bool)

  datatype Step = Start(t: nat, call: Call) | Go(t: nat)

  // ---------------------------------------------------------------- helpers

  function SetPc(s: State, t: nat, pc: Pc): State
    requires t < |s.threads|
  {
    s.(threads := s.threads[t := pc])
  }

  function SetMeta(s: State, h: nat, m: Meta): State
    requires h < |s.handles|
  {
    s.(handles := s.handles[h := s.handles[h].(meta := m)])
  }

  function SetLoc(s: State, e: nat, loc: Loc): State
    requires e < |s.entries|
  {
    s.(entries := s.entries[e := s.entries[e].(loc := loc)])
  }

  /** The deleter runs on entry e. */
  function DisposeOf(s: State, e: nat): State
    requires e < |s.entries|
  {
    s.(entries := s.entries[e := s.entries[e].(loc := Gone, disposals := s.entries[e].disposals + 1)])
  }

  function AddDisp(s: State, h: nat, d: int): State
    requires h < |s.handles|
  {
    s.(handles := s.handles[h := s.handles[h].(disp := s.handles[h].disp + d)])
  }

  function Acquired(m: Meta, n: int): Meta {
    m.(acq := m.acq + n)
  }

  const OWNED: Meta := Meta(Construction, 0, 0)
  const EMPTY: Meta := Meta(Empty, 0, 0)

  /** Table slots come first and all of them exist. */
  predicate Shaped(s: State) {
    0 < s.size <= |s.handles|
  }

  // ---------------------------------------------------------------- Lookup and Erase: finding the entry

  /** The optimistic increment: only a visible slot may hold the entry; in other states than Shareable the
      increment is junk and is left there. */
  function AfterAcquire(m: Meta, key: Key, p: nat, h: nat): FindPc {
    match m.st
    case Visible => Compare(key, p, h)
    case Invisible => Undo(key, p, h)
    case _ => Next(key, p, h)
  }

  function AddRef(s: State, h: nat, d: int): State
    requires h < |s.handles|
  {
    SetMeta(s, h, Acquired(s.handles[h].meta, d))
  }

  predicate KeyIn(s: State, h: nat, key: Key)
    requires h < |s.handles|
  {
    s.handles[h].entry < |s.entries| && s.entries[s.handles[h].entry].key == key
  }

  /** abort_fn, then the advance of FindSlot. */
  function AfterProbe(s: State, key: Key, p: nat, h: nat): Option<FindPc>
    requires s.size > 0 && h < |s.handles|
  {
    if s.handles[h].disp == 0 || p + 1 >= s.size then None else Some(Acquire(key, p + 1, Advance(key, h, s.size)))
  }

  function GoLookup(s: State, t: nat, f: FindPc): State
    requires Shaped(s) && t < |s.threads| && f.h < |s.handles|
  {
    match f
    case Acquire(key, p, h) => SetPc(AddRef(s, h, 1), t, Lookup(AfterAcquire(s.handles[h].meta, key, p, h)))
    case Compare(key, p, h) =>
      if KeyIn(s, h, key) then SetPc(s, t, Idle).(users := s.users + multiset{(h, s.handles[h].entry)})
      else SetPc(AddRef(s, h, -1), t, Lookup(Next(key, p, h)))
    case Undo(key, p, h) => SetPc(AddRef(s, h, -1), t, Lookup(Next(key, p, h)))
    case Next(key, p, h) =>
      var n := AfterProbe(s, key, p, h);
      SetPc(s, t, if n.Some? then Lookup(n.value) else Idle)
  }

  function GoErase(s: State, t: nat, f: FindPc): State
    requires Shaped(s) && t < |s.threads| && f.h < |s.handles|
  {
    match f
    case Acquire(key, p, h) => SetPc(AddRef(s, h, 1), t, Erase(AfterAcquire(s.handles[h].meta, key, p, h)))
    case Compare(key, p, h) =>
      if KeyIn(s, h, key) then
        var m := s.handles[h].meta.(st := Invisible);
        SetPc(SetMeta(s, h, m), t, Take(Hidden(key, p, h, m)))
      else SetPc(AddRef(s, h, -1), t, Erase(Next(key, p, h)))
    case Undo(key, p, h) => SetPc(AddRef(s, h, -1), t, Erase(Next(key, p, h)))
    case Next(key, p, h) =>
      var n := AfterProbe(s, key, p, h);
      SetPc(s, t, if n.Some? then Erase(n.value) else Idle)
  }

  // ---------------------------------------------------------------- taking an entry over in order to free it

  /** compare_exchange(seen, Construction) succeeded on handle h. */
  function TakeOver(s: State, t: nat, h: nat, cont: Cont): State
    requires s.size > 0 && h < |s.handles| && t < |s.threads|
  {
    var e := s.handles[h].entry;
    var cur := if e < |s.entries| then First(s.entries[e].key, s.size) else 0;
    SetPc(SetMeta(s, h, OWNED), t, Remove(if cont.ToErase? then Dispose(h, e, cont) else Roll(h, e, cur, cont)))
  }

  function GoTake(s: State, t: nat, k: TakePc): State
    requires Shaped(s) && t < |s.threads| && ((k.Hidden? || k.Released?) ==> k.h < |s.handles|)
  {
    match k
    case Hidden(key, p, h, seen) =>
      if Refcount(seen) > 1 then SetPc(AddRef(s, h, -1), t, Erase(Next(key, p, h)))
      else if s.handles[h].meta == seen then TakeOver(s, t, h, ToErase(key, p, h))
      else SetPc(s, t, Take(Hidden(key, p, h, s.handles[h].meta)))
    case Released(h, seen) =>
      if Refcount(seen) != 0 then SetPc(s, t, Take(Correct(h, seen)))
      else if !Shareable(seen) then SetPc(s, t, Idle)
      else if s.handles[h].meta != seen then SetPc(s, t, Take(Released(h, s.handles[h].meta)))
      else if h < s.size then TakeOver(s, t, h, ToIdle)
      else SetPc(SetMeta(s, h, OWNED), t, Remove(DisposeAlone(h, s.handles[h].entry)))
    case Correct(_, _) => SetPc(s, t, Idle)
    case AllAt(i) =>
      if i >= s.size then SetPc(s, t, Idle)
      else
        var m := s.handles[i].meta;
        SetPc(s, t, Take(if Shareable(m) && Refcount(m) == 0 then AllSeen(i, m) else AllAt(i + 1)))
    case AllSeen(i, seen) =>
      if i < s.size && s.handles[i].meta == seen then TakeOver(s, t, i, ToAll(i))
      else SetPc(s, t, Take(AllAt(i + 1)))
  }

  /** The next position of Evict after one slot has been dealt with. */
  function AfterSlot(ev: Ev): EvictPc {
    if ev.i + 1 < 4 then At(ev.(i := ev.i + 1))
    else if ev.freed >= ev.request || ev.ptr >= ev.limit then Done(ev)
    else Hand(ev)
  }

  function Resume(cont: Cont, size: nat): Pc
    requires size > 0
  {
    match cont
    case ToIdle => Idle
    case ToErase(key, p, h) => Remove(RollAfter(h, key, First(key, size), p))
    case ToAll(i) => Take(AllAt(i + 1))
    case ToEvict(ev) => Evict(AfterSlot(ev))
  }

  predicate RemoveInBounds(s: State, r: RemovePc) {
    match r
    case Roll(_, e, cur, _) => e < |s.entries| && cur < s.size
    case Dispose(_, e, _) => e < |s.entries|
    case Mark(h, _, _) => h < s.size
    case RollAfter(_, _, cur, _) => cur < s.size
    case DisposeAlone(h, e) => h < |s.handles| && e < |s.entries|
    case _ => true
  }

  function GoRemove(s: State, t: nat, r: RemovePc): State
    requires Shaped(s) && t < |s.threads| && RemoveInBounds(s, r)
  {
    match r
    case Roll(h, e, cur, cont) =>
      if cur == h then SetPc(s, t, Remove(Dispose(h, e, cont)))
      else SetPc(AddDisp(s, cur, -1), t, Remove(Roll(h, e, Advance(s.entries[e].key, cur, s.size), cont)))
    case Dispose(h, e, cont) =>
      var c := s.entries[e].charge;
      var s1 := DisposeOf(s, e);
      (match cont
       case ToEvict(ev) =>
         SetPc(s1, t, Remove(Mark(h, 0, ToEvict(ev.(freed := ev.freed + c, count := ev.count + 1)))))
       case _ => SetPc(s1, t, Remove(Mark(h, c, cont))))
    case Mark(h, c, cont) =>
      SetPc(SetMeta(s, h, EMPTY), t, if cont.ToEvict? then Resume(cont, s.size) else Remove(Reclaim1(h, c, cont)))
    case Reclaim1(h, c, cont) => SetPc(s, t, Remove(Reclaim2(h, c, cont))).(occupancy := s.occupancy - 1)
    case Reclaim2(h, c, cont) => SetPc(s, t, Resume(cont, s.size)).(usage := s.usage - c)
    case RollAfter(h, key, cur, p) =>
      if cur == h then SetPc(s, t, Erase(Next(key, p, h)))
      else SetPc(AddDisp(s, cur, -1), t, Remove(RollAfter(h, key, Advance(key, cur, s.size), p)))
    case DisposeAlone(h, e) =>
      SetPc(SetMeta(DisposeOf(s, e), h, Meta(Deleted, 0, 0)), t, Remove(ReclaimAlone(s.entries[e].charge)))
    case ReclaimAlone(c) => SetPc(s, t, Idle).(usage := s.usage - c)
  }

  // ---------------------------------------------------------------- Evict

  function GoEvict(s: State, t: nat, v: EvictPc): State
    requires Shaped(s) && t < |s.threads|
  {
    match v
    case Hand(ev) =>
      var limit := if ev.limit == 0 then s.clock + 3 * s.size else ev.limit;
      SetPc(s, t, Evict(At(ev.(ptr := s.clock, limit := limit, i := 0)))).(clock := s.clock + 4)
    case At(ev) =>
      var m := s.handles[(ev.ptr + ev.i) % s.size].meta;
      SetPc(s, t, Evict(if m.acq != m.rel || !Shareable(m) then AfterSlot(ev) else Seen(ev, m)))
    case Seen(ev, seen) =>
      var h := (ev.ptr + ev.i) % s.size;
      if s.handles[h].meta != seen then SetPc(s, t, Evict(AfterSlot(ev)))
      else if seen.st.Visible? && seen.acq > 0 then
        var n := Min(seen.acq - 1, 2);
        SetPc(SetMeta(s, h, Meta(Visible, n, n)), t, Evict(AfterSlot(ev)))
      else TakeOver(s, t, h, ToEvict(ev))
    case Done(ev) =>
      if !ev.ins.strict && ev.ins.needSlot && ev.count == 0 then SetPc(s, t, Insert(LooseFail(ev.ins)))
      else
        SetPc(s, t, Insert(if ev.ins.strict
                           then StrictAdjust(ev.ins, ev.need, ev.grabbed, ev.freed, ev.count == 0)
                           else LooseAdd(ev.ins, ev.freed))).(occupancy := s.occupancy - ev.count)
  }

  // ---------------------------------------------------------------- Insert and CreateStandalone

  /** The position once `usage_` includes the new entry's charge. */
  function Charged(ins: Ins, size: nat): Pc
    requires size > 0
  {
    Insert(if ins.table then Claim(ins, 0, First(ins.key, size)) else Alone(ins))
  }

  /** How much ChargeUsageMaybeEvictNonStrict tries to evict. */
  function LooseNeed(usage: int, c: nat, capacity: nat, needSlot: bool): nat {
    var need := if usage + c <= capacity || c > usage then 0
                else c + if usage > capacity then Min(capacity / 1024, c) + 1 else 0;
    if needSlot && need == 0 then 1 else need
  }

  /** What is to be evicted is nothing if the charge fits, or if there is not even that much in the cache, and no slot
      is needed; otherwise it makes up for the charge, and, if the usage is over the capacity already, for at least one
      byte and at most a 1024th of the capacity and one byte more. */
  lemma LooseNeedMeans(usage: int, c: nat, capacity: nat, needSlot: bool)
    ensures var need := LooseNeed(usage, c, capacity, needSlot);
      && (need == 0 <==> !needSlot && (usage + c <= capacity || c > usage))
      && (usage + c > capacity >= usage >= c > 0 ==> need == c)
      && (usage + c > capacity && usage >= c && usage > capacity ==>
            c < need <= c + 1 + capacity / 1024 && (c >= capacity / 1024 ==> need == c + 1 + capacity / 1024))
      && (needSlot && (usage + c <= capacity || c > usage) ==> need == 1)
  {
  }

  function GoCharge(s: State, t: nat, n: InsertPc): State
    requires Shaped(s) && t < |s.threads| && !Placing(n) && !Backing(n) && n.ins.e < |s.entries|
  {
    match n
    case StrictCharge(ins) =>
      var now := Min(ins.capacity, s.usage + ins.c);
      var need := s.usage + ins.c - now;
      var request := if ins.needSlot && need == 0 then 1 else need;
      SetPc(s, t, if request > 0 then Evict(Hand(Ev(ins, need, request, now - s.usage, 0, 0, 0, 0, 0)))
                  else Charged(ins, s.size)).(usage := now)
    case StrictAdjust(ins, need, grabbed, freed, none) =>
      if freed > need then SetPc(s, t, Charged(ins, s.size)).(usage := s.usage - (freed - need))
      else if freed < need || (ins.needSlot && none) then
        SetPc(s, t, Insert(StrictFail(ins))).(usage := s.usage - (freed + grabbed))
      else SetPc(s, t, Charged(ins, s.size))
    case StrictFail(ins) =>
      if ins.table then SetPc(SetLoc(s, ins.e, Returned), t, Idle).(occupancy := s.occupancy - 1)
      else if ins.uncharged then
        SetPc(s.(entries := s.entries[ins.e := s.entries[ins.e].(charge := 0)]), t, Insert(Alone(ins.(c := 0))))
      else SetPc(SetLoc(s, ins.e, Returned), t, Idle)
    case LooseLoad(ins) =>
      var need := LooseNeed(s.usage, ins.c, ins.capacity, ins.needSlot);
      SetPc(s, t, if need > 0 then Evict(Hand(Ev(ins, need, need, 0, 0, 0, 0, 0, 0))) else Insert(LooseAdd(ins, 0)))
    case LooseAdd(ins, freed) => SetPc(s, t, Charged(ins, s.size)).(usage := s.usage + ins.c - freed)
    case LooseFail(ins) =>
      SetPc(s, t, Insert(if ins.wantsHandle then LooseForce(ins) else DropProto(ins))).(occupancy := s.occupancy - 1)
    case LooseForce(ins) => SetPc(s, t, Insert(Alone(ins))).(usage := s.usage + ins.c)
  }

  predicate Placing(n: InsertPc) {
    n.Claim? || n.Write? || n.Publish? || n.Boost? || n.Match? || n.Unboost? || n.Displace?
  }

  function AfterBoost(m: Meta, ins: Ins, p: nat, h: nat): InsertPc {
    match m.st
    case Visible => Match(ins, p, h)
    case Invisible => Unboost(ins, p, h)
    case _ => Displace(ins, p, h)
  }

  function GoPlace(s: State, t: nat, n: InsertPc): State
    requires Shaped(s) && t < |s.threads| && Placing(n) && n.h < |s.handles| && n.ins.e < |s.entries|
  {
    var ins, p, h := n.ins, n.p, n.h;
    var m := s.handles[h].meta;
    match n
    case Claim(_, _, _) =>
      if m.st.Empty? then SetPc(SetMeta(s, h, m.(st := Construction)), t, Insert(Write(ins, p, h)))
      else SetPc(s, t, Insert(if m.st.Visible? then Boost(ins, p, h) else Displace(ins, p, h)))
    case Write(_, _, _) =>
      SetPc(s.(handles := s.handles[h := s.handles[h].(entry := ins.e)]), t, Insert(Publish(ins, p, h)))
    case Publish(_, _, _) =>
      var got := if ins.wantsHandle then 1 else 0;
      var s1 := SetLoc(SetMeta(s, h, Meta(Visible, ins.countdown, ins.countdown - got)), ins.e, InHandle(h));
      SetPc(s1, t, Idle).(users := if ins.wantsHandle then s.users + multiset{(h, ins.e)} else s.users)
    case Boost(_, _, _) => SetPc(AddRef(s, h, ins.countdown), t, Insert(AfterBoost(m, ins, p, h)))
    case Match(_, _, _) =>
      if KeyIn(s, h, ins.key) then
        SetPc(SetMeta(s, h, m.(rel := m.rel + ins.countdown)), t, Insert(Back(ins, h, First(ins.key, s.size))))
      else SetPc(AddRef(s, h, 0 - ins.countdown), t, Insert(Displace(ins, p, h)))
    case Unboost(_, _, _) => SetPc(AddRef(s, h, 0 - ins.countdown), t, Insert(Displace(ins, p, h)))
    case Displace(_, _, _) =>
      SetPc(AddDisp(s, h, 1), t, Insert(if p + 1 < s.size then Claim(ins, p + 1, Advance(ins.key, h, s.size))
                                        else Lost(ins, First(ins.key, s.size), 0)))
  }

  predicate Backing(n: InsertPc) {
    n.Lost? || n.Back? || n.Uncharge? || n.DropProto? || n.Alone?
  }

  function GoBack(s: State, t: nat, n: InsertPc): State
    requires Shaped(s) && t < |s.threads| && Backing(n) && n.ins.e < |s.entries|
    requires n.Lost? || n.Back? ==> n.cur < s.size
  {
    match n
    case Lost(ins, cur, rounds) =>
      SetPc(AddDisp(s, cur, -1), t, Insert(Lost(ins, Advance(ins.key, cur, s.size), rounds + 1)))
    case Back(ins, h, cur) =>
      if cur == h then
        SetPc(s, t, Insert(if ins.wantsHandle then Alone(ins) else Uncharge(ins))).(occupancy := s.occupancy - 1)
      else SetPc(AddDisp(s, cur, -1), t, Insert(Back(ins, h, Advance(ins.key, cur, s.size))))
    case Uncharge(ins) => SetPc(s, t, Insert(DropProto(ins))).(usage := s.usage - ins.c)
    case DropProto(ins) => SetPc(DisposeOf(s, ins.e), t, Idle)
    case Alone(ins) =>
      var h := |s.handles|;
      SetPc(SetLoc(s, ins.e, InHandle(h)), t, Idle).(
        handles := s.handles + [Handle(Meta(Invisible, 1, 0), ins.e, 0)],
        users := s.users + multiset{(h, ins.e)})
  }

  // ---------------------------------------------------------------- starting an operation

  predicate CallOk(s: State, call: Call) {
    match call
    case CallRef(h, e) => (h, e) in s.users && h < |s.handles|
    case CallRelease(h, e, _, _) => (h, e) in s.users && h < |s.handles|
    case CallInsert(_, _, countdown, _, _, _) => 1 <= countdown <= 3
    case _ => true
  }

  /** Where an insertion goes first: ChargeUsageMaybeEvictStrict refuses at once what can never fit. */
  function ChargePc(ins: Ins): Pc {
    Insert(if !ins.strict then LooseLoad(ins) else if ins.c > ins.capacity then StrictFail(ins) else StrictCharge(ins))
  }

  function DoRelease(s: State, t: nat, h: nat, e: nat, useful: bool, eraseIfLast: bool): State
    requires t < |s.threads| && h < |s.handles|
  {
    var m := s.handles[h].meta;
    var m1 := if useful then m.(rel := m.rel + 1) else m.(acq := m.acq - 1);
    SetPc(SetMeta(s, h, m1), t, Take(if eraseIfLast || m.st.Invisible? then Released(h, m1) else Correct(h, m)))
      .(users := s.users - multiset{(h, e)})
  }

  function DoRef(s: State, h: nat, e: nat): State
    requires h < |s.handles|
  {
    AddRef(s, h, 1).(users := s.users + multiset{(h, e)})
  }

  function DoStartInsert(s: State, t: nat, ins: Ins): State
    requires t < |s.threads|
  {
    SetPc(s, t, ChargePc(ins)).(
      entries := s.entries + [Entry(ins.key, ins.c, With(t), 0)],
      occupancy := if ins.table then s.occupancy + 1 else s.occupancy)
  }

  function DoStart(s: State, t: nat, call: Call): State
    requires Shaped(s) && t < |s.threads| && s.threads[t].Idle? && CallOk(s, call)
  {
    match call
    case CallLookup(key) => SetPc(s, t, Lookup(Acquire(key, 0, First(key, s.size))))
    case CallErase(key) => SetPc(s, t, Erase(Acquire(key, 0, First(key, s.size))))
    case CallRef(h, e) => DoRef(s, h, e)
    case CallRelease(h, e, useful, eraseIfLast) => DoRelease(s, t, h, e, useful, eraseIfLast)
    case CallEraseAll => SetPc(s, t, Take(AllAt(0)))
    case CallInsert(key, charge, countdown, wantsHandle, capacity, strict) =>
      DoStartInsert(s, t, Ins(|s.entries|, key, charge, countdown, wantsHandle, true, false,
                              s.occupancy >= s.occLimit, capacity, strict))
    case CallStandalone(key, charge, uncharged, capacity, strict) =>
      DoStartInsert(s, t, Ins(|s.entries|, key, charge, 1, true, false, uncharged, false, capacity, strict))
  }

  /** The handles a thread's position refers to exist. */
  predicate InBounds(s: State, pc: Pc) {
    match pc
    case Lookup(f) => f.h < s.size
    case Erase(f) => f.h < s.size
    case Take(Hidden(_, _, h, _)) => h < s.size
    case Take(Released(h, _)) => h < |s.handles|
    case Take(Correct(h, _)) => h < |s.handles|
    case Remove(r) => RemoveInBounds(s, r)
    case Insert(n) => n.ins.e < |s.entries| && (Placing(n) ==> n.h < s.size) && (n.Lost? || n.Back? ==> n.cur < s.size)
    case _ => true
  }

  function DoGo(s: State, t: nat): State
    requires Shaped(s) && t < |s.threads| && InBounds(s, s.threads[t])
  {
    match s.threads[t]
    case Idle => s
    case Lookup(f) => GoLookup(s, t, f)
    case Erase(f) => GoErase(s, t, f)
    case Take(k) => GoTake(s, t, k)
    case Remove(r) => GoRemove(s, t, r)
    case Evict(v) => GoEvict(s, t, v)
    case Insert(n) => if Placing(n) then GoPlace(s, t, n) else if Backing(n) then GoBack(s, t, n) else GoCharge(s, t, n)
  }

  predicate Enabled(s: State, step: Step) {
    && Shaped(s) && step.t < |s.threads|
    && match step
       case Start(t, call) => s.threads[t].Idle? && CallOk(s, call)
       case Go(t) => InBounds(s, s.threads[t])
  }

  function Apply(s: State, step: Step): State
    requires Enabled(s, step)
  {
    match step
    case Start(t, call) => DoStart(s, t, call)
    case Go(t) => DoGo(s, t)
  }

  ghost predicate Init(s: State) {
    && s.size > 0 && |s.handles| == s.size
    && (forall h :: 0 <= h < s.size ==> s.handles[h] == Handle(EMPTY, 0, 0))
    && s.entries == [] && s.users == multiset{}
    && (forall t :: 0 <= t < |s.threads| ==> s.threads[t].Idle?)
    && s.usage == s.base && s.occupancy == 0
  }

  ghost predicate Run(trace: seq<State>, steps: seq<Step>) {
    && |trace| == |steps| + 1 && Init(trace[0])
    && forall i :: 0 <= i < |steps| ==> Enabled(trace[i], steps[i]) && trace[i + 1] == Apply(trace[i], steps[i])
  }
}
