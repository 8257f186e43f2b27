/**
 The meta word of a clock table slot: acquire counter, release counter and state in one 64-bit number, and the
 atomic operations on it.  While both counters stay below 2^29 each operation does to the word what module
 ClockMachine does to the triple.
 */
module ClockMeta {
  import opened Basics
  import opened ClockMachine
  import ClockOwnership

  const COUNTER: nat := 0x4000_0000                    // 2^30
  const RELEASE: nat := COUNTER                        // kReleaseIncrement
  const STATE: nat := COUNTER * COUNTER                // 2^60
  const VISIBLE_BIT: nat := 1
  const OCCUPIED_BIT: nat := 4

  /** The state marker; a deleted standalone handle has none. */
  function Marker(st: SlotState): nat {
    match st
    case Empty => 0
    case Construction => 4
    case Invisible => 6
    case Visible => 7
    case Deleted => 0
  }

  predicate Fits(m: Meta) {
    !m.st.Deleted? && 0 <= m.acq < COUNTER && 0 <= m.rel < COUNTER
  }

  function Pack(m: Meta): nat
    requires Fits(m)
  {
    m.acq + RELEASE * m.rel + STATE * Marker(m.st)
  }

  function Acquires(w: nat): nat {
    w % COUNTER
  }

  function Releases(w: nat): nat {
    w / COUNTER % COUNTER
  }

  function State(w: nat): nat {
    w / STATE
  }

  /** Reading the fields back. */
  lemma Unpack(m: Meta)
    requires Fits(m)
    ensures Acquires(Pack(m)) == m.acq && Releases(Pack(m)) == m.rel && State(Pack(m)) == Marker(m.st)
  {
    var low := m.acq + RELEASE * m.rel;
    assert Pack(m) == low + STATE * Marker(m.st) && 0 <= low < STATE;
    assert Pack(m) / COUNTER == m.rel + COUNTER * Marker(m.st);
  }

  /** compare_exchange on words is comparison of triples. */
  lemma SameWord(a: Meta, b: Meta)
    requires Fits(a) && Fits(b) && Pack(a) == Pack(b)
    ensures a == b
  {
    Unpack(a);
    Unpack(b);
  }

  /** fetch_add of n acquire increments, fetch_sub, and fetch_add of n release increments. */
  lemma CountersMove(m: Meta, n: int)
    requires Fits(m)
    ensures Fits(Acquired(m, n)) ==> Pack(m) + n == Pack(Acquired(m, n))
    ensures Fits(m.(rel := m.rel + n)) ==> Pack(m) + RELEASE * n == Pack(m.(rel := m.rel + n))
  {
    assert RELEASE * (m.rel + n) == RELEASE * m.rel + RELEASE * n;
  }

  function SetBits(state: nat, bit: nat): nat
    requires bit > 0
  {
    if state / bit % 2 == 1 then state else state + bit
  }

  function ClearBit(state: nat, bit: nat): int
    requires bit > 0
  {
    if state / bit % 2 == 1 then state - bit else state
  }

  /** fetch_or of the occupied bit takes an empty slot into construction and leaves every other state alone;
      the counters, junk included, stay. */
  lemma OccupyWord(m: Meta)
    requires Fits(m)
    ensures STATE * SetBits(Marker(m.st), OCCUPIED_BIT) + (Pack(m) - STATE * Marker(m.st))
         == Pack(if m.st.Empty? then m.(st := Construction) else m)
  {
  }

  /** fetch_and with the visible bit cleared hides a visible entry. */
  lemma HideWord(m: Meta)
    requires Fits(m) && m.st.Visible?
    ensures STATE * ClearBit(Marker(m.st), VISIBLE_BIT) + (Pack(m) - STATE * Marker(m.st)) == Pack(m.(st := Invisible))
  {
  }

  const TOP_BIT: nat := 0x2000_0000                    // 2^29
  const CHECK_BIT: nat := 4                            // kMaxCountdown + 1

  /** The guard of CorrectNearOverflow: the release counter has its top bit or the check bit set. */
  predicate Fires(seen: Meta) {
    seen.rel / TOP_BIT % 2 == 1 || seen.rel / CHECK_BIT % 2 == 1
  }

  /** CorrectNearOverflow on a slot whose word was seen as `seen` and is m by now: if the guard fires on the former, the
      top bits of both counters of the latter are cleared. */
  function Corrected(seen: Meta, m: Meta): Meta
    requires Fits(m)
  {
    if Fires(seen) then m.(acq := ClearBit(m.acq, TOP_BIT), rel := ClearBit(m.rel, TOP_BIT)) else m
  }

  /** GetRefcount: the difference of the counters, in 30 bits. */
  function WordRefcount(w: nat): nat {
    (Acquires(w) - Releases(w)) % COUNTER
  }

  /** Below 2^29 the correction changes nothing, whatever was seen. */
  lemma CorrectionIdle(seen: Meta, m: Meta)
    requires Fits(m) && m.acq < TOP_BIT && m.rel < TOP_BIT
    ensures Corrected(seen, m) == m
  {
    TopBit(m.acq);
    TopBit(m.rel);
  }

  /** In general it keeps the reference count if and only if the guard does not fire on the word seen, or both counters
      of the current word have the same top bit. */
  lemma CorrectionKeepsRefcount(seen: Meta, m: Meta)
    requires Fits(m)
    ensures WordRefcount(Pack(Corrected(seen, m))) == WordRefcount(Pack(m)) <==>
      !Fires(seen) || (m.acq >= TOP_BIT <==> m.rel >= TOP_BIT)
  {
    hide Pack, Acquires, Releases, Fires;
    TopBit(m.acq);
    TopBit(m.rel);
    Unpack(m);
    Unpack(Corrected(seen, m));
    HalfMatters(m.acq - m.rel);
    HalfMatters(m.acq - m.rel - TOP_BIT);
  }

  /** An input on which it does not, in one useful Release: ten references with the acquire counter just past 2^29, of
      which one is given back.  The guard, on the word before, fires; nine references are left, and miscounted. */
  lemma CorrectionExample()
    ensures var seen := Meta(Visible, 0x2000_0001, 0x1FFF_FFF7);
      var m := seen.(rel := seen.rel + 1);
      && Fits(seen) && Fits(m) && Refcount(m) == 9 && Fires(seen) && !Fires(m)
      && WordRefcount(Pack(Corrected(seen, m))) != WordRefcount(Pack(m))
  {
    hide WordRefcount, Pack;
    var seen := Meta(Visible, 0x2000_0001, 0x1FFF_FFF7);
    CorrectionKeepsRefcount(seen, seen.(rel := seen.rel + 1));
  }

  lemma TopBit(x: nat)
    requires x < COUNTER
    ensures x / TOP_BIT % 2 == (if x >= TOP_BIT then 1 else 0) && 0 <= ClearBit(x, TOP_BIT) < TOP_BIT
  {
    if x < TOP_BIT {
      assert x / TOP_BIT == 0;
    } else {
      assert x / TOP_BIT == 1;
    }
  }

  /** Half a round more is another remainder. */
  lemma HalfMatters(x: int)
    ensures (x + TOP_BIT) % COUNTER != x % COUNTER
  {
    assert TOP_BIT == 0x2000_0000 && COUNTER == 0x4000_0000;
  }

  // ---------------------------------------------------------------- what a step does to the word

  /** The atomic operations on a meta word. */
  datatype WordOp =
    | Leave
    | AddAcquires(n: int)                       // fetch_add or fetch_sub of acquire increments
    | AddReleases(n: int)                       // fetch_add of release increments
    | Occupy                                    // fetch_or of the occupied bit
    | Hide                                      // fetch_and without the visible bit
    | Exchange(expected: Meta, desired: Meta)   // compare_exchange
    | Store(value: Meta)
    | Correction(seen: Meta)                    // CorrectNearOverflow

  predicate OpFits(op: WordOp) {
    match op
    case Exchange(x, y) => Fits(x) && Fits(y)
    case Store(y) => Fits(y)
    case _ => true
  }

  function Perform(op: WordOp, w: nat): int
    requires OpFits(op)
  {
    match op
    case Leave => w
    case AddAcquires(n) => w + n
    case AddReleases(n) => w + RELEASE * n
    case Occupy => STATE * SetBits(State(w), OCCUPIED_BIT) + (w - STATE * State(w))
    case Hide => STATE * ClearBit(State(w), VISIBLE_BIT) + (w - STATE * State(w))
    case Exchange(x, y) => if w == Pack(x) then Pack(y) else w
    case Store(y) => Pack(y)
    case Correction(seen) =>
      if Fires(seen) then w - (Acquires(w) - ClearBit(Acquires(w), TOP_BIT))
                            - RELEASE * (Releases(w) - ClearBit(Releases(w), TOP_BIT))
      else w
  }

  /** A handle and what is done to its meta word. */
  datatype Access = Access(h: nat, op: WordOp)

  const NOTHING := Access(0, Leave)

  function FindAccess(s: ClockMachine.State, f: FindPc, erase: bool): Access
    requires f.h < |s.handles|
  {
    match f
    case Acquire(_, _, h) => Access(h, AddAcquires(1))
    case Compare(key, _, h) =>
      Access(h, if !KeyIn(s, h, key) then AddAcquires(-1) else if erase then Hide else Leave)
    case Undo(_, _, h) => Access(h, AddAcquires(-1))
    case Next(_, _, _) => NOTHING
  }

  function TakeAccess(k: TakePc): Access {
    match k
    case Hidden(_, _, h, seen) => Access(h, if Refcount(seen) > 1 then AddAcquires(-1) else Exchange(seen, OWNED))
    case Released(h, seen) =>
      Access(h, if Refcount(seen) != 0 || !Shareable(seen) then Leave else Exchange(seen, OWNED))
    case Correct(h, seen) => Access(h, Correction(seen))
    case AllAt(_) => NOTHING
    case AllSeen(i, seen) => Access(i, Exchange(seen, OWNED))
  }

  function EvictAccess(s: ClockMachine.State, v: EvictPc): Access
    requires s.size > 0
  {
    match v
    case Seen(ev, seen) =>
      var n := Min(seen.acq - 1, 2);
      Access((ev.ptr + ev.i) % s.size,
             Exchange(seen, if seen.st.Visible? && seen.acq > 0 then Meta(Visible, n, n) else OWNED))
    case _ => NOTHING
  }

  function PlaceAccess(s: ClockMachine.State, n: InsertPc): Access
    requires Placing(n) && n.h < |s.handles|
  {
    var c := n.ins.countdown;
    match n
    case Claim(_, _, h) => Access(h, Occupy)
    case Publish(ins, _, h) => Access(h, Store(Meta(Visible, c, c - if ins.wantsHandle then 1 else 0)))
    case Boost(_, _, h) => Access(h, AddAcquires(c))
    case Match(ins, _, h) => Access(h, if KeyIn(s, h, ins.key) then AddReleases(c) else AddAcquires(0 - c))
    case Unboost(_, _, h) => Access(h, AddAcquires(0 - c))
    case _ => NOTHING
  }

  /** The access to a meta word that the code makes at a thread's position. */
  function AccessAt(s: ClockMachine.State, pc: Pc): Access
    requires Shaped(s) && InBounds(s, pc)
  {
    match pc
    case Lookup(f) => FindAccess(s, f, false)
    case Erase(f) => FindAccess(s, f, true)
    case Take(k) => TakeAccess(k)
    case Remove(Mark(h, _, _)) => Access(h, Store(EMPTY))
    case Evict(v) => EvictAccess(s, v)
    case Insert(n) => if Placing(n) then PlaceAccess(s, n) else NOTHING
    case _ => NOTHING
  }

  /** Both counters are below 2^29, where the machine does without the correction. */
  predicate Small(m: Meta) {
    m.acq < TOP_BIT && m.rel < TOP_BIT
  }

  /** The word of handle h after the access. */
  ghost predicate Accessed(s: ClockMachine.State, r: ClockMachine.State, a: Access, h: nat)
    requires h < |s.handles| && OpFits(a.op)
  {
    && h < |r.handles|
    && var m, q := s.handles[h].meta, r.handles[h].meta;
       Fits(m) && Fits(q) && (a.op.Correction? ==> Small(m)) ==>
         Pack(q) == if h == a.h then Perform(a.op, Pack(m)) else Pack(m)
  }

  /** One access, said about the triple. */
  function PerformOn(op: WordOp, m: Meta): Meta {
    match op
    case Leave => m
    case AddAcquires(n) => Acquired(m, n)
    case AddReleases(n) => m.(rel := m.rel + n)
    case Occupy => if m.st.Empty? then m.(st := Construction) else m
    case Hide => if m.st.Visible? then m.(st := Invisible) else m
    case Exchange(x, y) => if m == x then y else m
    case Store(y) => y
    case Correction(_) => m
  }

  /** The operations on words do what they do on triples. */
  lemma WordIsTriple(op: WordOp, m: Meta)
    requires OpFits(op) && Fits(m) && Fits(PerformOn(op, m)) && (op.Correction? ==> Small(m))
    ensures Pack(PerformOn(op, m)) == Perform(op, Pack(m))
  {
    Unpack(m);
    match op
    case AddAcquires(n) => CountersMove(m, n);
    case AddReleases(n) => CountersMove(m, n);
    case Occupy => OccupyWord(m);
    case Hide => if m.st.Visible? { HideWord(m); }
    case Exchange(x, _) => if Pack(x) == Pack(m) { SameWord(x, m); }
    case Correction(_) => TopBit(m.acq); TopBit(m.rel);
    case _ =>
  }

  /** On triples, a step makes exactly the access of its position. */
  ghost predicate Made(s: ClockMachine.State, r: ClockMachine.State, a: Access) {
    forall h: nat :: h < |s.handles| ==>
      h < |r.handles| && r.handles[h].meta == if h == a.h then PerformOn(a.op, s.handles[h].meta) else s.handles[h].meta
  }

  lemma FindMakes(s: ClockMachine.State, t: nat, f: FindPc)
    requires Shaped(s) && t < |s.threads| && f.h < |s.handles|
    ensures Made(s, GoLookup(s, t, f), FindAccess(s, f, false))
  {
  }

  lemma EraseMakes(s: ClockMachine.State, t: nat, f: FindPc)
    requires Shaped(s) && t < |s.threads| && f.h < |s.handles| && (f.Compare? ==> Shareable(s.handles[f.h].meta))
    ensures Made(s, GoErase(s, t, f), FindAccess(s, f, true))
  {
  }

  lemma TakeMakes(s: ClockMachine.State, t: nat, k: TakePc)
    requires Shaped(s) && t < |s.threads| && ((k.Hidden? || k.Released? || k.Correct?) ==> k.h < |s.handles|)
    requires k.AllSeen? ==> k.i < s.size
    ensures Made(s, GoTake(s, t, k), TakeAccess(k))
  {
  }

  lemma EvictMakes(s: ClockMachine.State, t: nat, v: EvictPc)
    requires Shaped(s) && t < |s.threads|
    ensures Made(s, GoEvict(s, t, v), EvictAccess(s, v))
  {
  }

  lemma PlaceMakes(s: ClockMachine.State, t: nat, n: InsertPc)
    requires Shaped(s) && t < |s.threads| && Placing(n) && n.h < |s.handles| && n.ins.e < |s.entries|
    ensures Made(s, GoPlace(s, t, n), PlaceAccess(s, n))
  {
  }

  lemma RestMakes(s: ClockMachine.State, t: nat)
    requires Shaped(s) && t < |s.threads| && InBounds(s, s.threads[t])
    requires s.threads[t].Idle? || (s.threads[t].Remove? && !s.threads[t].r.DisposeAlone?)
          || (s.threads[t].Insert? && !Placing(s.threads[t].n))
    ensures Made(s, DoGo(s, t), AccessAt(s, s.threads[t]))
  {
  }

  /** What the ownership invariant says of a position: whoever erases looks at an entry that is there, and a slot to
      be freed by EraseUnRefEntries is one of the table. */
  predicate Sound(s: ClockMachine.State, pc: Pc) {
    match pc
    case Erase(Compare(_, _, h)) => h < |s.handles| && Shareable(s.handles[h].meta)
    case Take(AllSeen(i, _)) => i < s.size
    case Remove(DisposeAlone(_, _)) => false
    case _ => true
  }

  /** Every step of the machine does to the meta words what the code does at that position to the 64-bit words, as
      long as the counters fit.  (A standalone handle is deleted with its word.) */
  lemma StepOnWords(s: ClockMachine.State, t: nat, h: nat)
    requires Shaped(s) && t < |s.threads| && InBounds(s, s.threads[t]) && Sound(s, s.threads[t]) && h < |s.handles|
    requires OpFits(AccessAt(s, s.threads[t]).op)
    ensures Accessed(s, DoGo(s, t), AccessAt(s, s.threads[t]), h)
  {
    hide GoLookup, GoErase, GoTake, GoEvict, GoPlace, GoRemove, GoBack, GoCharge, Pack, Perform, PerformOn;
    var pc := s.threads[t];
    match pc {
      case Lookup(f) => FindMakes(s, t, f);
      case Erase(f) => EraseMakes(s, t, f);
      case Take(k) => TakeMakes(s, t, k);
      case Evict(v) => EvictMakes(s, t, v);
      case Insert(n) => if Placing(n) { PlaceMakes(s, t, n); } else { RestMakes(s, t); }
      case _ => RestMakes(s, t);
    }
    assert Made(s, DoGo(s, t), AccessAt(s, pc));
    var a, m := AccessAt(s, pc), s.handles[h].meta;
    if h == a.h && Fits(m) && Fits(PerformOn(a.op, m)) && (a.op.Correction? ==> Small(m)) { WordIsTriple(a.op, m); }
  }

  lemma SoundAt(s: ClockMachine.State, t: nat)
    requires ClockOwnership.Inv(s) && t < |s.threads| && !(s.threads[t].Remove? && s.threads[t].r.DisposeAlone?)
    ensures Shaped(s) && InBounds(s, s.threads[t]) && Sound(s, s.threads[t])
  {
    assert ClockOwnership.ThreadOk(s, t);
    var pc := s.threads[t];
    if pc.Erase? && pc.g.Compare? {
      var h := pc.g.h;
      assert ClockOwnership.HandleOk(s, h);
      ClockOwnership.ClaimsAfter(s, s, t, pc, h);
    }
  }

  /** On every run, then, each step of a thread does to each meta word what the code does. */
  lemma RunOnWords(trace: seq<ClockMachine.State>, steps: seq<Step>, i: nat, t: nat, h: nat)
    requires Run(trace, steps) && i < |steps| && steps[i] == Go(t) && h < |trace[i].handles| && t < |trace[i].threads|
    requires var pc := trace[i].threads[t]; !(pc.Remove? && pc.r.DisposeAlone?)
    ensures var s := trace[i];
      && Shaped(s) && InBounds(s, s.threads[t])
      && (OpFits(AccessAt(s, s.threads[t]).op) ==> Accessed(s, trace[i + 1], AccessAt(s, s.threads[t]), h))
  {
    hide DoGo, AccessAt, OpFits;
    ClockOwnership.RunInv(trace, steps, i);
    SoundAt(trace[i], t);
    if OpFits(AccessAt(trace[i], trace[i].threads[t]).op) { StepOnWords(trace[i], t, h); }
  }

  /** Ref and Release begin with one access. */
  lemma CallOnWords(s: ClockMachine.State, t: nat, g: nat, e: nat, useful: bool, eraseIfLast: bool, h: nat)
    requires t < |s.threads| && g < |s.handles| && h < |s.handles|
    ensures Accessed(s, DoRef(s, g, e), Access(g, AddAcquires(1)), h)
    ensures Accessed(s, DoRelease(s, t, g, e, useful, eraseIfLast),
                     Access(g, if useful then AddReleases(1) else AddAcquires(-1)), h)
  {
    var m := s.handles[h].meta;
    if h == g && Fits(m) {
      CountersMove(m, 1);
      CountersMove(m, -1);
    }
  }
}
