/**
 Ownership in the clock table: who may touch a handle's data, on every interleaving.

 The invariant counts, for every handle, the references its acquire and release counters stand for and the
 threads that own it exclusively; it ties every entry to the one place where it is.
 */
module ClockOwnership {
  import opened Basics
  import opened ClockProbe
  import opened ClockMachine
  import opened Sums

  // ---------------------------------------------------------------- what one thread has on one handle

  /** References held while an operation is under way; exclusive ownership, with the entry still in the
      handle (store) or not (bare); and the duty to free an unreferenced handle (zero). */
  datatype Tally = Tally(hold: int, store: int, bare: int, zero: int)

  const NONE := Tally(0, 0, 0, 0)

  /** A thread has a grip on at most one handle. */
  datatype Grip = Grip(h: nat, c: Tally)

  function HoldGrip(h: nat, n: nat): Grip {
    Grip(h, Tally(n, 0, 0, 0))
  }

  function GripOf(pc: Pc): Grip {
    match pc
    case Lookup(f) => HoldGrip(f.h, B(f.Compare? || f.Undo?))
    case Erase(f) => HoldGrip(f.h, B(f.Compare? || f.Undo?))
    case Take(Hidden(_, _, h, _)) => HoldGrip(h, 1)
    case Take(Released(h, seen)) => Grip(h, Tally(0, 0, 0, B(Shareable(seen) && Refcount(seen) == 0)))
    case Remove(Roll(h, _, _, _)) => Grip(h, Tally(0, 1, 0, 0))
    case Remove(Dispose(h, _, _)) => Grip(h, Tally(0, 1, 0, 0))
    case Remove(DisposeAlone(h, _)) => Grip(h, Tally(0, 1, 0, 0))
    case Remove(Mark(h, _, _)) => Grip(h, Tally(0, 0, 1, 0))
    case Insert(Write(_, _, h)) => Grip(h, Tally(0, 0, 1, 0))
    case Insert(Publish(_, _, h)) => Grip(h, Tally(0, 0, 1, 0))
    case Insert(Match(ins, _, h)) => HoldGrip(h, ins.countdown)
    case Insert(Unboost(ins, _, h)) => HoldGrip(h, ins.countdown)
    case _ => Grip(0, NONE)
  }

  function Plus(a: Tally, b: Tally): Tally {
    Tally(a.hold + b.hold, a.store + b.store, a.bare + b.bare, a.zero + b.zero)
  }

  function On(g: Grip, h: nat): Tally {
    if g.h == h then g.c else NONE
  }

  datatype Part = Hold | Store | Bare | Zero

  function Pick(c: Tally, part: Part): int {
    match part
    case Hold => c.hold
    case Store => c.store
    case Bare => c.bare
    case Zero => c.zero
  }

  /** One part of every thread's claims on h. */
  function Parts(ths: seq<Pc>, h: nat, part: Part): (xs: seq<int>)
    ensures |xs| == |ths|
    ensures forall i :: 0 <= i < |ths| ==> xs[i] >= 0
  {
    seq(|ths|, i requires 0 <= i < |ths| => Pick(On(GripOf(ths[i]), h), part))
  }

  /** All the claims on h. */
  function Claims(s: State, h: nat): Tally {
    Tally(Sum(Parts(s.threads, h, Hold)), Sum(Parts(s.threads, h, Store)),
          Sum(Parts(s.threads, h, Bare)), Sum(Parts(s.threads, h, Zero)))
  }

  predicate AtMost(a: Tally, b: Tally) {
    a.hold <= b.hold && a.store <= b.store && a.bare <= b.bare && a.zero <= b.zero
  }

  lemma PartAfter(ths: seq<Pc>, t: nat, now: Pc, h: nat, part: Part)
    requires t < |ths|
    ensures Sum(Parts(ths[t := now], h, part))
         == Sum(Parts(ths, h, part)) - Pick(On(GripOf(ths[t]), h), part) + Pick(On(GripOf(now), h), part)
    ensures 0 <= Pick(On(GripOf(ths[t]), h), part) <= Sum(Parts(ths, h, part))
  {
    var xs := Parts(ths, h, part);
    assert Parts(ths[t := now], h, part) == xs[t := Pick(On(GripOf(now), h), part)];
    SumUpdate(xs, t, Pick(On(GripOf(now), h), part));
    SumMember(xs, t);
  }

  /** Thread t's grip changes; the claims on h follow. */
  lemma ClaimsAfter(s: State, r: State, t: nat, now: Pc, h: nat)
    requires t < |s.threads| && r.threads == s.threads[t := now]
    ensures Plus(Claims(r, h), On(GripOf(s.threads[t]), h)) == Plus(Claims(s, h), On(GripOf(now), h))
    ensures AtMost(NONE, On(GripOf(s.threads[t]), h)) && AtMost(On(GripOf(s.threads[t]), h), Claims(s, h))
  {
    PartAfter(s.threads, t, now, h, Hold);
    PartAfter(s.threads, t, now, h, Store);
    PartAfter(s.threads, t, now, h, Bare);
    PartAfter(s.threads, t, now, h, Zero);
  }

  /** Two threads' grips count separately. */
  lemma ClaimsOfTwo(s: State, t: nat, u: nat, h: nat)
    requires t < |s.threads| && u < |s.threads| && t != u
    ensures AtMost(Plus(On(GripOf(s.threads[t]), h), On(GripOf(s.threads[u]), h)), Claims(s, h))
  {
    SumTwo(Parts(s.threads, h, Hold), t, u);
    SumTwo(Parts(s.threads, h, Store), t, u);
    SumTwo(Parts(s.threads, h, Bare), t, u);
    SumTwo(Parts(s.threads, h, Zero), t, u);
  }

  // ---------------------------------------------------------------- the invariant

  /** The state of a handle fits the claims on it.  A standalone handle without references has exactly one
      thread about to free it. */
  predicate Fits(m: Meta, alone: bool, refs: int, c: Tally) {
    match m.st
    case Empty => !alone && refs == 0 && c.store == 0 && c.bare == 0
    case Construction => refs == 0 && c.store + c.bare == 1 && (alone ==> c.zero == 0 && c.bare == 0)
    case Visible => !alone && c.store == 0 && c.bare == 0 && Refcount(m) == refs
    case Invisible => c.store == 0 && c.bare == 0 && Refcount(m) == refs && (alone ==> c.zero == B(refs == 0))
    case Deleted => alone && refs == 0 && c.store == 0 && c.bare == 0 && c.zero == 0
  }

  predicate HandleOk(s: State, h: nat)
    requires h < |s.handles|
  {
    var x := s.handles[h];
    && Fits(x.meta, h >= s.size, s.users[(h, x.entry)] + Claims(s, h).hold, Claims(s, h))
    && (Shareable(x.meta) ==> x.entry < |s.entries| && s.entries[x.entry].loc == InHandle(h))
  }

  ghost predicate UsersOk(s: State) {
    forall h: nat, e: nat :: (h, e) in s.users ==>
      h < |s.handles| && s.handles[h].entry == e && Shareable(s.handles[h].meta)
  }

  /** The call whose entry is still with the thread. */
  function InsOf(pc: Pc): Option<Ins> {
    match pc
    case Insert(n) => Some(n.ins)
    case Evict(v) => Some(v.ev.ins)
    case Remove(Roll(_, _, _, ToEvict(ev))) => Some(ev.ins)
    case Remove(Dispose(_, _, ToEvict(ev))) => Some(ev.ins)
    case Remove(Mark(_, _, ToEvict(ev))) => Some(ev.ins)
    case _ => None
  }

  predicate Occupied(s: State, h: nat)
    requires h < |s.handles|
  {
    Shareable(s.handles[h].meta) || Claims(s, h).store > 0
  }

  predicate EntryOk(s: State, e: nat)
    requires e < |s.entries|
  {
    var x := s.entries[e];
    && x.disposals == B(x.loc.Gone?)
    && match x.loc
       case With(t) => t < |s.threads| && InsOf(s.threads[t]).Some? && InsOf(s.threads[t]).value.e == e
       case InHandle(h) => h < |s.handles| && s.handles[h].entry == e && Occupied(s, h)
       case _ => true
  }

  predicate InsOk(s: State, t: nat, ins: Ins) {
    && ins.e < |s.entries| && s.entries[ins.e].loc == With(t)
    && s.entries[ins.e].charge == ins.c && s.entries[ins.e].key == ins.key
    && 1 <= ins.countdown <= 3 && (!ins.table ==> ins.wantsHandle && !ins.needSlot)
  }

  predicate EvOk(ev: Ev) {
    ev.count == 0 ==> ev.freed == 0
  }

  predicate ContOk(s: State, cont: Cont) {
    (cont.ToEvict? ==> EvOk(cont.ev)) && (cont.ToErase? ==> cont.h < s.size)
  }

  predicate Stores(s: State, h: nat, e: nat) {
    h < |s.handles| && e < |s.entries| && s.handles[h].entry == e && s.entries[e].loc == InHandle(h)
  }

  predicate Unreferenced(m: Meta) {
    Shareable(m) && Refcount(m) == 0
  }

  predicate RemoveOk(s: State, r: RemovePc) {
    match r
    case Roll(h, e, cur, cont) => h < s.size && Stores(s, h, e) && ContOk(s, cont)
    case Dispose(h, e, cont) => h < s.size && Stores(s, h, e) && ContOk(s, cont)
    case Mark(h, _, cont) => h < s.size && ContOk(s, cont)
    case Reclaim1(h, _, cont) => ContOk(s, cont) && !cont.ToEvict?
    case Reclaim2(h, _, cont) => ContOk(s, cont) && !cont.ToEvict?
    case RollAfter(h, _, _, _) => h < s.size
    case DisposeAlone(h, e) => s.size <= h && Stores(s, h, e)
    case _ => true
  }

  predicate PcOk(s: State, t: nat, pc: Pc) {
    && InBounds(s, pc)
    && (InsOf(pc).Some? ==> InsOk(s, t, InsOf(pc).value))
    && match pc
       case Insert(Publish(ins, _, h)) => h < |s.handles| && s.handles[h].entry == ins.e
       case Evict(v) => EvOk(v.ev) && (v.Seen? ==> Unreferenced(v.seen))
       case Remove(r) => RemoveOk(s, r)
       case Take(AllSeen(i, seen)) => i < s.size && Unreferenced(seen)
       case Take(Released(h, seen)) =>
         h >= s.size && GripOf(pc).c.zero == 1 ==> h < |s.handles| && s.handles[h].meta == seen
       case _ => true
  }

  predicate ThreadOk(s: State, t: nat)
    requires t < |s.threads|
  {
    PcOk(s, t, s.threads[t])
  }

  ghost predicate Inv(s: State) {
    && Shaped(s)
    && (forall h: nat :: h < |s.handles| ==> HandleOk(s, h))
    && UsersOk(s)
    && (forall e: nat :: e < |s.entries| ==> EntryOk(s, e))
    && (forall t: nat :: t < |s.threads| ==> ThreadOk(s, t))
  }

  lemma InitInv(s: State)
    requires Init(s)
    ensures Inv(s)
  {
    forall h: nat | h < |s.handles| ensures HandleOk(s, h) {
      SumZero(Parts(s.threads, h, Hold));
      SumZero(Parts(s.threads, h, Store));
      SumZero(Parts(s.threads, h, Bare));
      SumZero(Parts(s.threads, h, Zero));
    }
  }

  // ---------------------------------------------------------------- one thread moves

  predicate GripOnly(g: Grip, h0: nat) {
    g.h == h0 || g.c == NONE
  }

  /** Thread t goes to `now`; only handle h0, entry e0 and callers' references to h0 change (an index out of
      range stands for none); displacement counts are free. */
  ghost predicate Frame(s: State, r: State, t: nat, now: Pc, h0: nat, e0: nat) {
    && t < |s.threads| && r.threads == s.threads[t := now]
    && GripOnly(GripOf(s.threads[t]), h0) && GripOnly(GripOf(now), h0)
    && r.size == s.size && |r.handles| == |s.handles| && |r.entries| == |s.entries|
    && (forall h: nat {:trigger s.handles[h]} {:trigger r.handles[h]} :: h < |s.handles| && h != h0 ==>
          r.handles[h].meta == s.handles[h].meta && r.handles[h].entry == s.handles[h].entry)
    && (forall e: nat {:trigger s.entries[e]} {:trigger r.entries[e]} ::
          e < |s.entries| && e != e0 ==> r.entries[e] == s.entries[e])
    && (forall h: nat, e: nat {:trigger r.users[(h, e)]} {:trigger s.users[(h, e)]} ::
          h != h0 || h >= |s.handles| ==> r.users[(h, e)] == s.users[(h, e)])
  }

  /** The claims on h0 after the move, from those before. */
  function Moved(c: Tally, was: Tally, now: Tally): Tally
    requires AtMost(was, c)
  {
    Tally(c.hold - was.hold + now.hold, c.store - was.store + now.store,
          c.bare - was.bare + now.bare, c.zero - was.zero + now.zero)
  }

  /** h0 goes from x, with claims c, to y, with claims d. */
  ghost predicate HandleMove(s: State, r: State, t: nat, h0: nat, e0: nat, x: Handle, y: Handle, c: Tally, d: Tally)
    requires t < |s.threads|
  {
    && Fits(y.meta, h0 >= s.size, r.users[(h0, y.entry)] + d.hold, d)
    && (Shareable(y.meta) ==> y.entry < |r.entries| && r.entries[y.entry].loc == InHandle(h0))
    && (y.entry != x.entry ==> c.bare == 1 && GripOf(s.threads[t]).c.bare == 1)
    && (h0 >= s.size && y.meta != x.meta ==> c.zero == GripOf(s.threads[t]).c.zero)
    && ((Shareable(x.meta) || c.store > 0) && x.entry != e0 ==>
          y.entry == x.entry && (Shareable(y.meta) || d.store > 0))
    && (forall e: nat {:trigger r.users[(h0, e)]} :: r.users[(h0, e)] > 0 ==> e == y.entry && Shareable(y.meta))
  }

  /** e0 goes from x to y. */
  predicate EntryMove(s: State, r: State, t: nat, now: Pc, h0: nat, e0: nat, x: Entry, y: Entry)
    requires t < |s.threads|
  {
    && (x.loc == With(t) || x.loc == Returned || (x.loc == InHandle(h0) && GripOf(s.threads[t]).c.store == 1))
    && y.disposals == B(y.loc.Gone?)
    && match y.loc
       case With(u) => u == t && InsOf(now).Some? && InsOf(now).value.e == e0
       case InHandle(h) => h == h0 && h0 < |r.handles| && r.handles[h0].entry == e0 && Shareable(r.handles[h0].meta)
       case _ => true
  }

  predicate KeepsIns(was: Pc, now: Pc, e0: nat) {
    InsOf(was).Some? && InsOf(was).value.e != e0 ==>
      InsOf(now).Some? && InsOf(now).value.e == InsOf(was).value.e
  }

  /** What has to be checked about h0. */
  ghost predicate LocalHandle(s: State, r: State, t: nat, now: Pc, h0: nat, e0: nat)
    requires Frame(s, r, t, now, h0, e0) && h0 < |s.handles|
  {
    var c, was := Claims(s, h0), On(GripOf(s.threads[t]), h0);
    AtMost(was, c) ==>
      HandleMove(s, r, t, h0, e0, s.handles[h0], r.handles[h0], c, Moved(c, was, On(GripOf(now), h0)))
  }

  /** What has to be checked about t, h0 and e0 themselves. */
  ghost predicate LocalOk(s: State, r: State, t: nat, now: Pc, h0: nat, e0: nat)
    requires Frame(s, r, t, now, h0, e0)
  {
    && (h0 < |s.handles| ==> LocalHandle(s, r, t, now, h0, e0))
    && (e0 < |s.entries| ==> EntryMove(s, r, t, now, h0, e0, s.entries[e0], r.entries[e0]))
    && KeepsIns(s.threads[t], now, e0)
    && PcOk(r, t, now)
  }

  /** Claims on a handle that the move does not concern stay. */
  lemma SameClaims(s: State, r: State, t: nat, now: Pc, h0: nat, h: nat)
    requires t < |s.threads| && r.threads == s.threads[t := now] && h != h0
    requires GripOnly(GripOf(s.threads[t]), h0) && GripOnly(GripOf(now), h0)
    ensures Claims(r, h) == Claims(s, h)
  {
    ClaimsAfter(s, r, t, now, h);
  }

  lemma SameHandle(s: State, r: State, h: nat)
    requires h < |s.handles| && h < |r.handles| && HandleOk(s, h) && r.size == s.size && Claims(r, h) == Claims(s, h)
    requires r.handles[h].meta == s.handles[h].meta && r.handles[h].entry == s.handles[h].entry
    requires r.users[(h, s.handles[h].entry)] == s.users[(h, s.handles[h].entry)]
    requires forall e: nat {:trigger s.entries[e]} :: e < |s.entries| && s.entries[e].loc == InHandle(h) ==>
      e < |r.entries| && r.entries[e].loc == InHandle(h)
    ensures HandleOk(r, h)
  {
  }

  lemma MovedOthers(s: State, r: State, t: nat, now: Pc, h0: nat, e0: nat, h: nat)
    requires Frame(s, r, t, now, h0, e0) && h < |s.handles| && h != h0 && HandleOk(s, h)
    requires e0 < |s.entries| ==> s.entries[e0].loc != InHandle(h)
    ensures HandleOk(r, h)
  {
    SameClaims(s, r, t, now, h0, h);
    SameHandle(s, r, h);
  }

  lemma MovedHere(s: State, r: State, t: nat, now: Pc, h0: nat, e0: nat)
    requires Frame(s, r, t, now, h0, e0) && h0 < |s.handles| && LocalHandle(s, r, t, now, h0, e0)
    ensures HandleOk(r, h0)
  {
    ClaimsAfter(s, r, t, now, h0);
    assert Claims(r, h0) == Moved(Claims(s, h0), On(GripOf(s.threads[t]), h0), On(GripOf(now), h0));
  }

  lemma MovedEntries(s: State, r: State, t: nat, now: Pc, h0: nat, e0: nat, e: nat)
    requires Inv(s) && Frame(s, r, t, now, h0, e0) && LocalOk(s, r, t, now, h0, e0) && e < |s.entries|
    ensures EntryOk(r, e)
  {
    assert EntryOk(s, e);
    if e != e0 && s.entries[e].loc.InHandle? {
      ClaimsAfter(s, r, t, now, s.entries[e].loc.h);
    }
  }

  /** A call's entry stays with its thread. */
  lemma MovedIns(s: State, r: State, t: nat, now: Pc, h0: nat, e0: nat, u: nat, ins: Ins)
    requires Frame(s, r, t, now, h0, e0) && LocalOk(s, r, t, now, h0, e0) && u != t && InsOk(s, u, ins)
    ensures InsOk(r, u, ins)
  {
  }

  /** What thread u has a grip on is not touched by thread t. */
  lemma MovedGrip(s: State, r: State, t: nat, now: Pc, h0: nat, e0: nat, u: nat)
    requires Frame(s, r, t, now, h0, e0) && LocalOk(s, r, t, now, h0, e0) && u < |s.threads| && u != t
    requires h0 < |s.handles| && HandleOk(s, h0)
    ensures On(GripOf(s.threads[u]), h0).bare > 0 ==> r.handles[h0].entry == s.handles[h0].entry
    ensures On(GripOf(s.threads[u]), h0).store > 0 ==>
      r.handles[h0].entry == s.handles[h0].entry && (e0 < |s.entries| ==> s.entries[e0].loc != InHandle(h0))
    ensures h0 >= s.size && On(GripOf(s.threads[u]), h0).zero > 0 ==> r.handles[h0].meta == s.handles[h0].meta
  {
    ClaimsAfter(s, r, t, now, h0);
    ClaimsOfTwo(s, t, u, h0);
  }

  /** Nothing a thread's position relies on can be changed by another thread. */
  lemma MovedPcs(s: State, r: State, t: nat, now: Pc, h0: nat, e0: nat, u: nat)
    requires Frame(s, r, t, now, h0, e0) && LocalOk(s, r, t, now, h0, e0) && u < |s.threads| && u != t
    requires Shaped(s) && ThreadOk(s, u) && (h0 < |s.handles| ==> HandleOk(s, h0))
    ensures ThreadOk(r, u)
  {
    var pc := s.threads[u];
    if InsOf(pc).Some? { MovedIns(s, r, t, now, h0, e0, u, InsOf(pc).value); }
    if h0 < |s.handles| { MovedGrip(s, r, t, now, h0, e0, u); }
    if pc.Remove? { MovedRemove(s, r, t, now, h0, e0, u, pc.r); }
  }

  lemma MovedRemove(s: State, r: State, t: nat, now: Pc, h0: nat, e0: nat, u: nat, p: RemovePc)
    requires Frame(s, r, t, now, h0, e0) && u < |s.threads| && s.threads[u] == Remove(p) && RemoveOk(s, p)
    requires h0 < |s.handles| && On(GripOf(s.threads[u]), h0).store > 0 ==>
      r.handles[h0].entry == s.handles[h0].entry && (e0 < |s.entries| ==> s.entries[e0].loc != InHandle(h0))
    requires e0 < |s.entries| ==> EntryMove(s, r, t, now, h0, e0, s.entries[e0], r.entries[e0])
    ensures RemoveOk(r, p)
  {
  }

  lemma MovedUsers(s: State, r: State, t: nat, now: Pc, h0: nat, e0: nat)
    requires Inv(s) && Frame(s, r, t, now, h0, e0) && LocalOk(s, r, t, now, h0, e0)
    ensures UsersOk(r)
  {
    ClaimsAfter(s, r, t, now, h0);
    forall h: nat, e: nat | (h, e) in r.users
      ensures h < |r.handles| && r.handles[h].entry == e && Shareable(r.handles[h].meta)
    {
      assert r.users[(h, e)] > 0;
      if h != h0 {
        assert s.users[(h, e)] > 0;
      }
    }
  }

  lemma InvAfter(s: State, r: State, t: nat, now: Pc, h0: nat, e0: nat)
    requires Inv(s) && Frame(s, r, t, now, h0, e0) && LocalOk(s, r, t, now, h0, e0)
    ensures Inv(r)
  {
    forall h: nat | h < |r.handles| ensures HandleOk(r, h) {
      if h != h0 { MovedOthers(s, r, t, now, h0, e0, h); } else { MovedHere(s, r, t, now, h0, e0); }
    }
    forall e: nat | e < |r.entries| ensures EntryOk(r, e) { MovedEntries(s, r, t, now, h0, e0, e); }
    forall u: nat | u < |r.threads| ensures ThreadOk(r, u) {
      if u != t {
        assert ThreadOk(s, u);
        if h0 < |s.handles| { assert HandleOk(s, h0); }
        MovedPcs(s, r, t, now, h0, e0, u);
      }
    }
    MovedUsers(s, r, t, now, h0, e0);
  }

  // ---------------------------------------------------------------- every step keeps the invariant

  /** What the invariant says about thread t, handle h0 and entry e0. */
  ghost predicate Ready(s: State, t: nat, h0: nat, e0: nat) {
    && Shaped(s) && t < |s.threads| && ThreadOk(s, t)
    && (h0 < |s.handles| ==>
          && HandleOk(s, h0)
          && AtMost(NONE, On(GripOf(s.threads[t]), h0)) && AtMost(On(GripOf(s.threads[t]), h0), Claims(s, h0))
          && (forall e: nat {:trigger s.users[(h0, e)]} ::
                s.users[(h0, e)] > 0 ==> e == s.handles[h0].entry && Shareable(s.handles[h0].meta)))
    && (e0 < |s.entries| ==> EntryOk(s, e0))
  }

  lemma InvThread(s: State, t: nat)
    requires Inv(s) && t < |s.threads|
    ensures Shaped(s) && ThreadOk(s, t)
  {
  }

  lemma InvReady(s: State, t: nat, h0: nat, e0: nat)
    requires Inv(s) && t < |s.threads|
    ensures Ready(s, t, h0, e0)
  {
    if h0 < |s.handles| {
      ClaimsAfter(s, s, t, s.threads[t], h0);
      forall e: nat | s.users[(h0, e)] > 0 ensures e == s.handles[h0].entry && Shareable(s.handles[h0].meta) {
        assert (h0, e) in s.users;
      }
    }
  }

  /** r is s after a move of thread t that concerns only h0 and e0, and the move is sound. */
  ghost predicate Sound(s: State, r: State, t: nat, h0: nat, e0: nat) {
    t < |s.threads| && t < |r.threads| && Frame(s, r, t, r.threads[t], h0, e0) && LocalOk(s, r, t, r.threads[t], h0, e0)
  }

  lemma SoundKeepsInv(s: State, r: State, t: nat, h0: nat, e0: nat)
    requires Inv(s) && Sound(s, r, t, h0, e0)
    ensures Inv(r)
  {
    InvAfter(s, r, t, r.threads[t], h0, e0);
  }

  /** The move leaves h0's counters, its entry and its references alone. */
  ghost predicate SameHandles(s: State, r: State) {
    && r.size == s.size && |r.handles| == |s.handles|
    && forall h: nat {:trigger s.handles[h]} {:trigger r.handles[h]} :: h < |s.handles| ==>
         r.handles[h].meta == s.handles[h].meta && r.handles[h].entry == s.handles[h].entry
  }

  lemma QuietGrip(s: State, r: State, t: nat, now: Pc)
    requires Inv(s) && t < |s.threads| && r.threads == s.threads[t := now]
    requires SameHandles(s, r) && r.entries == s.entries && r.users == s.users && GripOf(now) == GripOf(s.threads[t])
    requires KeepsIns(s.threads[t], now, |s.entries|) && PcOk(s, t, now)
    ensures Inv(r)
  {
    hide Inv;
    var h0 := GripOf(s.threads[t]).h;
    InvReady(s, t, h0, |s.entries|);
    InvAfter(s, r, t, now, h0, |s.entries|);
  }

  lemma QuietNoGrip(s: State, r: State, t: nat, now: Pc)
    requires Inv(s) && t < |s.threads| && r.threads == s.threads[t := now]
    requires SameHandles(s, r) && r.entries == s.entries && r.users == s.users
    requires GripOf(now).c == NONE && GripOf(s.threads[t]).c == NONE
    requires KeepsIns(s.threads[t], now, |s.entries|) && PcOk(s, t, now)
    ensures Inv(r)
  {
    hide Inv;
    InvAfter(s, r, t, now, |s.handles|, |s.entries|);
  }

  /** A move that touches only the thread itself, totals and displacement counts. */
  lemma QuietStep(s: State, r: State, t: nat, now: Pc)
    requires Inv(s) && t < |s.threads| && r.threads == s.threads[t := now]
    requires SameHandles(s, r) && r.entries == s.entries && r.users == s.users
    requires GripOf(now) == GripOf(s.threads[t]) || (GripOf(now).c == NONE && GripOf(s.threads[t]).c == NONE)
    requires KeepsIns(s.threads[t], now, |s.entries|) && PcOk(s, t, now)
    ensures Inv(r)
  {
    hide Inv, PcOk, KeepsIns, SameHandles;
    if GripOf(now) == GripOf(s.threads[t]) { QuietGrip(s, r, t, now); } else { QuietNoGrip(s, r, t, now); }
  }

  /** fetch_add on the acquire counter: n references if the slot is Shareable, junk if not. */
  lemma AcquireStep(s: State, t: nat, h: nat, n: nat, now: Pc)
    requires Inv(s) && t < |s.threads| && h < s.size && GripOf(s.threads[t]).c == NONE
    requires if Shareable(s.handles[h].meta) then GripOf(now) == HoldGrip(h, n) else GripOf(now).c == NONE
    requires KeepsIns(s.threads[t], now, |s.entries|) && PcOk(s, t, now)
    ensures Inv(SetPc(AddRef(s, h, n), t, now))
  {
    hide Inv;
    InvReady(s, t, h, |s.entries|);
    SoundKeepsInv(s, SetPc(AddRef(s, h, n), t, now), t, h, |s.entries|);
  }

  /** A holder's handle is Shareable. */
  lemma HolderShares(s: State, t: nat, h: nat)
    requires Inv(s) && t < |s.threads| && h < |s.handles| && On(GripOf(s.threads[t]), h).hold > 0
    ensures Shareable(s.handles[h].meta)
  {
    hide Inv;
    InvReady(s, t, h, |s.entries|);
  }

  /** fetch_sub on the acquire counter, by the holder of n references. */
  lemma UndoStep(s: State, t: nat, h: nat, n: nat, now: Pc)
    requires Inv(s) && t < |s.threads| && h < s.size && n > 0
    requires GripOf(s.threads[t]) == HoldGrip(h, n) && GripOf(now).c == NONE
    requires KeepsIns(s.threads[t], now, |s.entries|) && PcOk(s, t, now)
    ensures Inv(SetPc(AddRef(s, h, 0 - n), t, now))
  {
    hide Inv;
    InvReady(s, t, h, |s.entries|);
    SoundKeepsInv(s, SetPc(AddRef(s, h, 0 - n), t, now), t, h, |s.entries|);
  }

  /** compare_exchange to Construction, when the mover has all the references there are. */
  lemma TakeOverStep(s: State, t: nat, h: nat, cont: Cont)
    requires Inv(s) && t < |s.threads| && h < s.size && GripOnly(GripOf(s.threads[t]), h)
    requires Shareable(s.handles[h].meta) && Refcount(s.handles[h].meta) == On(GripOf(s.threads[t]), h).hold
    requires ContOk(s, cont) && InsOf(s.threads[t]) == (if cont.ToEvict? then Some(cont.ev.ins) else None)
    ensures Inv(TakeOver(s, t, h, cont))
  {
    hide Inv;
    InvReady(s, t, h, |s.entries|);
    SoundKeepsInv(s, TakeOver(s, t, h, cont), t, h, |s.entries|);
  }

  /** Lookup found the entry: its reference becomes the caller's. */
  lemma FoundStep(s: State, t: nat, key: Key, p: nat, h: nat)
    requires Inv(s) && t < |s.threads| && s.threads[t] == Lookup(Compare(key, p, h)) && h < s.size && KeyIn(s, h, key)
    ensures Inv(GoLookup(s, t, Compare(key, p, h)))
  {
    hide Inv;
    InvReady(s, t, h, |s.entries|);
    SoundKeepsInv(s, GoLookup(s, t, Compare(key, p, h)), t, h, |s.entries|);
  }

  lemma LookupStep(s: State, t: nat, f: FindPc)
    requires Inv(s) && t < |s.threads| && s.threads[t] == Lookup(f)
    ensures f.h < s.size && Inv(GoLookup(s, t, f))
  {
    hide Inv;
    InvThread(s, t);
    var r := GoLookup(s, t, f);
    match f
    case Acquire(key, p, h) => AcquireStep(s, t, h, 1, r.threads[t]);
    case Compare(key, p, h) =>
      if KeyIn(s, h, key) { FoundStep(s, t, key, p, h); } else { UndoStep(s, t, h, 1, r.threads[t]); }
    case Undo(key, p, h) => UndoStep(s, t, h, 1, r.threads[t]);
    case Next(_, _, _) => QuietStep(s, r, t, r.threads[t]);
  }

  /** Erase found the entry and makes it invisible. */
  lemma HideStep(s: State, t: nat, key: Key, p: nat, h: nat)
    requires Inv(s) && t < |s.threads| && s.threads[t] == Erase(Compare(key, p, h)) && h < s.size && KeyIn(s, h, key)
    ensures Inv(GoErase(s, t, Compare(key, p, h)))
  {
    hide Inv;
    InvReady(s, t, h, |s.entries|);
    SoundKeepsInv(s, GoErase(s, t, Compare(key, p, h)), t, h, |s.entries|);
  }

  lemma EraseStep(s: State, t: nat, f: FindPc)
    requires Inv(s) && t < |s.threads| && s.threads[t] == Erase(f)
    ensures f.h < s.size && Inv(GoErase(s, t, f))
  {
    hide Inv;
    InvThread(s, t);
    var r := GoErase(s, t, f);
    match f
    case Acquire(key, p, h) => AcquireStep(s, t, h, 1, r.threads[t]);
    case Compare(key, p, h) =>
      if KeyIn(s, h, key) { HideStep(s, t, key, p, h); } else { UndoStep(s, t, h, 1, r.threads[t]); }
    case Undo(key, p, h) => UndoStep(s, t, h, 1, r.threads[t]);
    case Next(_, _, _) => QuietStep(s, r, t, r.threads[t]);
  }

  /** The last reference to a slot was given back. */
  lemma LastStep(s: State, t: nat, h: nat, seen: Meta)
    requires Inv(s) && t < |s.threads| && s.threads[t] == Take(Released(h, seen)) && h < s.size <= |s.handles|
    requires Unreferenced(seen)
    ensures Inv(GoTake(s, t, Released(h, seen)))
  {
    hide Inv;
    InvReady(s, t, h, |s.entries|);
    if s.handles[h].meta == seen {
      TakeOverStep(s, t, h, ToIdle);
    } else {
      SoundKeepsInv(s, GoTake(s, t, Released(h, seen)), t, h, |s.entries|);
    }
  }

  /** The last reference to a standalone handle was given back. */
  lemma LastAloneStep(s: State, t: nat, h: nat, seen: Meta)
    requires Inv(s) && t < |s.threads| && s.threads[t] == Take(Released(h, seen)) && s.size <= h < |s.handles|
    requires Unreferenced(seen)
    ensures Inv(GoTake(s, t, Released(h, seen)))
  {
    hide Inv;
    InvReady(s, t, h, |s.entries|);
    SoundKeepsInv(s, GoTake(s, t, Released(h, seen)), t, h, |s.entries|);
  }

  lemma ReleasedStep(s: State, t: nat, h: nat, seen: Meta)
    requires Inv(s) && t < |s.threads| && s.threads[t] == Take(Released(h, seen))
    ensures h < |s.handles| && Inv(GoTake(s, t, Released(h, seen)))
  {
    hide Inv;
    InvThread(s, t);
    var r := GoTake(s, t, Released(h, seen));
    if !Unreferenced(seen) { QuietStep(s, r, t, r.threads[t]); }
    else if h < s.size { LastStep(s, t, h, seen); }
    else { LastAloneStep(s, t, h, seen); }
  }

  lemma TakeStep(s: State, t: nat, k: TakePc)
    requires Inv(s) && t < |s.threads| && s.threads[t] == Take(k)
    ensures InBounds(s, s.threads[t]) && Inv(GoTake(s, t, k))
  {
    hide Inv;
    InvThread(s, t);
    var r := GoTake(s, t, k);
    match k
    case Hidden(key, p, h, seen) =>
      HolderShares(s, t, h);
      if Refcount(seen) > 1 {
        UndoStep(s, t, h, 1, r.threads[t]);
      } else if s.handles[h].meta == seen {
        InvReady(s, t, h, |s.entries|);
        TakeOverStep(s, t, h, ToErase(key, p, h));
      } else {
        QuietStep(s, r, t, r.threads[t]);
      }
    case Released(h, seen) => ReleasedStep(s, t, h, seen);
    case Correct(_, _) => QuietStep(s, r, t, Idle);
    case AllAt(i) => QuietStep(s, r, t, r.threads[t]);
    case AllSeen(i, seen) =>
      if s.handles[i].meta == seen { TakeOverStep(s, t, i, ToAll(i)); } else { QuietStep(s, r, t, r.threads[t]); }
  }

  lemma DisposeStep(s: State, t: nat, h: nat, e: nat, cont: Cont)
    requires Inv(s) && t < |s.threads| && s.threads[t] == Remove(Dispose(h, e, cont)) && e < |s.entries|
    ensures Inv(GoRemove(s, t, Dispose(h, e, cont)))
  {
    hide Inv;
    InvReady(s, t, h, e);
    SoundKeepsInv(s, GoRemove(s, t, Dispose(h, e, cont)), t, h, e);
  }

  lemma DisposeAloneStep(s: State, t: nat, h: nat, e: nat)
    requires Inv(s) && t < |s.threads| && s.threads[t] == Remove(DisposeAlone(h, e))
    requires h < |s.handles| && e < |s.entries|
    ensures Inv(GoRemove(s, t, DisposeAlone(h, e)))
  {
    hide Inv;
    InvReady(s, t, h, e);
    SoundKeepsInv(s, GoRemove(s, t, DisposeAlone(h, e)), t, h, e);
  }

  lemma MarkStep(s: State, t: nat, h: nat, c: nat, cont: Cont)
    requires Inv(s) && t < |s.threads| && s.threads[t] == Remove(Mark(h, c, cont)) && h < s.size
    ensures Inv(GoRemove(s, t, Mark(h, c, cont)))
  {
    hide Inv;
    InvReady(s, t, h, |s.entries|);
    SoundKeepsInv(s, GoRemove(s, t, Mark(h, c, cont)), t, h, |s.entries|);
  }

  lemma RestOfRemoveStep(s: State, t: nat, p: RemovePc)
    requires Inv(s) && t < |s.threads| && s.threads[t] == Remove(p) && !p.Dispose? && !p.DisposeAlone? && !p.Mark?
    ensures RemoveInBounds(s, p) && Inv(GoRemove(s, t, p))
  {
    hide Inv;
    InvThread(s, t);
    QuietStep(s, GoRemove(s, t, p), t, GoRemove(s, t, p).threads[t]);
  }

  lemma RemoveStep(s: State, t: nat, p: RemovePc)
    requires Inv(s) && t < |s.threads| && s.threads[t] == Remove(p)
    ensures RemoveInBounds(s, p) && Inv(GoRemove(s, t, p))
  {
    hide Inv, GoRemove;
    InvThread(s, t);
    match p
    case Dispose(h, e, cont) => DisposeStep(s, t, h, e, cont);
    case DisposeAlone(h, e) => DisposeAloneStep(s, t, h, e);
    case Mark(h, c, cont) => MarkStep(s, t, h, c, cont);
    case _ => RestOfRemoveStep(s, t, p);
  }

  /** The clock hand passes an unreferenced visible entry that is still being counted down. */
  lemma AgeStep(s: State, t: nat, h: nat, m: Meta, now: Pc)
    requires Inv(s) && t < |s.threads| && h < s.size <= |s.handles|
    requires GripOf(s.threads[t]).c == NONE && GripOf(now).c == NONE
    requires s.handles[h].meta.st.Visible? && Refcount(s.handles[h].meta) == 0 && m.st.Visible? && Refcount(m) == 0
    requires KeepsIns(s.threads[t], now, |s.entries|) && PcOk(s, t, now)
    ensures Inv(SetPc(SetMeta(s, h, m), t, now))
  {
    hide Inv;
    InvReady(s, t, h, |s.entries|);
    SoundKeepsInv(s, SetPc(SetMeta(s, h, m), t, now), t, h, |s.entries|);
  }

  /** What the position of an eviction that has seen a slot says. */
  lemma SeenFacts(s: State, t: nat, ev: Ev, seen: Meta)
    requires t < |s.threads| && s.threads[t] == Evict(Seen(ev, seen)) && ThreadOk(s, t)
    ensures Unreferenced(seen) && ContOk(s, ToEvict(ev)) && GripOf(s.threads[t]).c == NONE
    ensures InsOf(s.threads[t]) == Some(ev.ins)
    ensures var now := Evict(AfterSlot(ev));
      GripOf(now).c == NONE && KeepsIns(s.threads[t], now, |s.entries|) && PcOk(s, t, now)
  {
  }

  lemma SeenStep(s: State, t: nat, ev: Ev, seen: Meta)
    requires Inv(s) && t < |s.threads| && s.threads[t] == Evict(Seen(ev, seen))
    ensures Inv(GoEvict(s, t, Seen(ev, seen)))
  {
    hide Inv, PcOk, KeepsIns;
    InvThread(s, t);
    SeenFacts(s, t, ev, seen);
    var h, now := (ev.ptr + ev.i) % s.size, Evict(AfterSlot(ev));
    if s.handles[h].meta != seen {
      QuietStep(s, SetPc(s, t, now), t, now);
    } else if seen.st.Visible? && seen.acq > 0 {
      var n := Min(seen.acq - 1, 2);
      AgeStep(s, t, h, Meta(Visible, n, n), now);
    } else {
      TakeOverStep(s, t, h, ToEvict(ev));
    }
  }

  lemma EvictStep(s: State, t: nat, v: EvictPc)
    requires Inv(s) && t < |s.threads| && s.threads[t] == Evict(v)
    ensures Inv(GoEvict(s, t, v))
  {
    hide Inv;
    InvThread(s, t);
    var r := GoEvict(s, t, v);
    match v
    case Seen(ev, seen) => SeenStep(s, t, ev, seen);
    case _ => QuietStep(s, r, t, r.threads[t]);
  }

  /** A move that changes only the thread and its own entry. */
  lemma OwnEntryStep(s: State, r: State, t: nat, now: Pc, e: nat)
    requires Inv(s) && t < |s.threads| && e < |s.entries| && r.threads == s.threads[t := now]
    requires SameHandles(s, r) && r.users == s.users && |r.entries| == |s.entries|
    requires r.entries == s.entries[e := r.entries[e]] && InsOf(s.threads[t]).Some? && InsOf(s.threads[t]).value.e == e
    requires GripOf(now).c == NONE && GripOf(s.threads[t]).c == NONE
    requires EntryMove(s, r, t, now, |s.handles|, e, s.entries[e], r.entries[e]) && PcOk(r, t, now)
    ensures Inv(r)
  {
    InvAfter(s, r, t, now, |s.handles|, e);
  }

  lemma StrictFailStep(s: State, t: nat, ins: Ins)
    requires Inv(s) && t < |s.threads| && s.threads[t] == Insert(StrictFail(ins))
    ensures ins.e < |s.entries| && Inv(GoCharge(s, t, StrictFail(ins)))
  {
    hide Inv;
    InvReady(s, t, |s.handles|, ins.e);
    var r := GoCharge(s, t, StrictFail(ins));
    OwnEntryStep(s, r, t, r.threads[t], ins.e);
  }

  lemma StrictChargeStep(s: State, t: nat, n: InsertPc)
    requires Inv(s) && t < |s.threads| && s.threads[t] == Insert(n) && (n.StrictCharge? || n.StrictAdjust?)
    ensures n.ins.e < |s.entries| && Inv(GoCharge(s, t, n))
  {
    hide Inv;
    InvThread(s, t);
    QuietStep(s, GoCharge(s, t, n), t, GoCharge(s, t, n).threads[t]);
  }

  lemma LooseChargeStep(s: State, t: nat, n: InsertPc)
    requires Inv(s) && t < |s.threads| && s.threads[t] == Insert(n)
    requires n.LooseLoad? || n.LooseAdd? || n.LooseFail? || n.LooseForce?
    ensures n.ins.e < |s.entries| && Inv(GoCharge(s, t, n))
  {
    hide Inv;
    InvThread(s, t);
    QuietStep(s, GoCharge(s, t, n), t, GoCharge(s, t, n).threads[t]);
  }

  lemma ChargeStep(s: State, t: nat, n: InsertPc)
    requires Inv(s) && t < |s.threads| && s.threads[t] == Insert(n) && !Placing(n) && !Backing(n)
    ensures n.ins.e < |s.entries| && Inv(GoCharge(s, t, n))
  {
    hide Inv, GoCharge;
    InvThread(s, t);
    if n.StrictFail? { StrictFailStep(s, t, n.ins); }
    else if n.StrictCharge? || n.StrictAdjust? { StrictChargeStep(s, t, n); }
    else { LooseChargeStep(s, t, n); }
  }

  lemma ClaimedStep(s: State, t: nat, ins: Ins, p: nat, h: nat)
    requires Inv(s) && t < |s.threads| && s.threads[t] == Insert(Claim(ins, p, h))
    requires h < s.size <= |s.handles| && ins.e < |s.entries| && s.handles[h].meta.st.Empty?
    ensures Inv(GoPlace(s, t, Claim(ins, p, h)))
  {
    hide Inv;
    InvReady(s, t, h, |s.entries|);
    SoundKeepsInv(s, GoPlace(s, t, Claim(ins, p, h)), t, h, |s.entries|);
  }

  lemma ClaimStep(s: State, t: nat, ins: Ins, p: nat, h: nat)
    requires Inv(s) && t < |s.threads| && s.threads[t] == Insert(Claim(ins, p, h))
    ensures h < s.size && ins.e < |s.entries| && Inv(GoPlace(s, t, Claim(ins, p, h)))
  {
    hide Inv;
    InvThread(s, t);
    var r := GoPlace(s, t, Claim(ins, p, h));
    if s.handles[h].meta.st.Empty? { ClaimedStep(s, t, ins, p, h); } else { QuietStep(s, r, t, r.threads[t]); }
  }

  lemma WriteStep(s: State, t: nat, ins: Ins, p: nat, h: nat)
    requires Inv(s) && t < |s.threads| && s.threads[t] == Insert(Write(ins, p, h))
    ensures h < s.size && ins.e < |s.entries| && Inv(GoPlace(s, t, Write(ins, p, h)))
  {
    hide Inv;
    InvReady(s, t, h, |s.entries|);
    SoundKeepsInv(s, GoPlace(s, t, Write(ins, p, h)), t, h, |s.entries|);
  }

  lemma PublishStep(s: State, t: nat, ins: Ins, p: nat, h: nat)
    requires Inv(s) && t < |s.threads| && s.threads[t] == Insert(Publish(ins, p, h))
    ensures h < s.size && ins.e < |s.entries| && Inv(GoPlace(s, t, Publish(ins, p, h)))
  {
    hide Inv;
    InvThread(s, t);
    InvReady(s, t, h, ins.e);
    SoundKeepsInv(s, GoPlace(s, t, Publish(ins, p, h)), t, h, ins.e);
  }

  /** Insert found an entry for its key and gives its references back as releases. */
  lemma MatchedStep(s: State, t: nat, ins: Ins, p: nat, h: nat)
    requires Inv(s) && t < |s.threads| && s.threads[t] == Insert(Match(ins, p, h))
    requires h < s.size && ins.e < |s.entries| && KeyIn(s, h, ins.key)
    ensures Inv(GoPlace(s, t, Match(ins, p, h)))
  {
    hide Inv;
    InvReady(s, t, h, |s.entries|);
    SoundKeepsInv(s, GoPlace(s, t, Match(ins, p, h)), t, h, |s.entries|);
  }

  lemma MatchStep(s: State, t: nat, ins: Ins, p: nat, h: nat)
    requires Inv(s) && t < |s.threads| && s.threads[t] == Insert(Match(ins, p, h))
    ensures h < s.size && ins.e < |s.entries| && Inv(GoPlace(s, t, Match(ins, p, h)))
  {
    hide Inv;
    InvThread(s, t);
    if KeyIn(s, h, ins.key) {
      MatchedStep(s, t, ins, p, h);
    } else {
      UndoStep(s, t, h, ins.countdown, Insert(Displace(ins, p, h)));
    }
  }

  lemma PlaceStep(s: State, t: nat, n: InsertPc)
    requires Inv(s) && t < |s.threads| && s.threads[t] == Insert(n) && Placing(n)
    ensures n.h < s.size && n.ins.e < |s.entries| && Inv(GoPlace(s, t, n))
  {
    hide Inv;
    InvThread(s, t);
    var r := GoPlace(s, t, n);
    match n
    case Claim(ins, p, h) => ClaimStep(s, t, ins, p, h);
    case Write(ins, p, h) => WriteStep(s, t, ins, p, h);
    case Publish(ins, p, h) => PublishStep(s, t, ins, p, h);
    case Boost(ins, p, h) => AcquireStep(s, t, h, ins.countdown, r.threads[t]);
    case Match(ins, p, h) => MatchStep(s, t, ins, p, h);
    case Unboost(ins, p, h) => UndoStep(s, t, h, ins.countdown, r.threads[t]);
    case Displace(ins, p, h) => QuietStep(s, r, t, r.threads[t]);
  }

  /** Room for a standalone handle, before it is used. */
  lemma GrowHandles(s: State, e: nat)
    requires Inv(s)
    ensures Inv(s.(handles := s.handles + [Handle(Meta(Deleted, 0, 0), e, 0)]))
  {
    var h := |s.handles|;
    var r := s.(handles := s.handles + [Handle(Meta(Deleted, 0, 0), e, 0)]);
    forall t: nat | t < |s.threads|
      ensures On(GripOf(s.threads[t]), h) == NONE && ThreadOk(r, t)
    {
      assert ThreadOk(s, t);
    }
    SumZero(Parts(s.threads, h, Hold));
    SumZero(Parts(s.threads, h, Store));
    SumZero(Parts(s.threads, h, Bare));
    SumZero(Parts(s.threads, h, Zero));
    forall g: nat | g < |r.handles| ensures HandleOk(r, g) {
      if g < h { assert HandleOk(s, g); }
    }
    forall x: nat | x < |r.entries| ensures EntryOk(r, x) { assert EntryOk(s, x); }
  }

  lemma AloneStep(s: State, t: nat, ins: Ins)
    requires Inv(s) && t < |s.threads| && s.threads[t] == Insert(Alone(ins))
    ensures ins.e < |s.entries| && Inv(GoBack(s, t, Alone(ins)))
  {
    hide Inv;
    InvThread(s, t);
    var g := s.(handles := s.handles + [Handle(Meta(Deleted, 0, 0), ins.e, 0)]);
    GrowHandles(s, ins.e);
    InvReady(g, t, |s.handles|, ins.e);
    SoundKeepsInv(g, GoBack(s, t, Alone(ins)), t, |s.handles|, ins.e);
  }

  lemma RestOfBackStep(s: State, t: nat, n: InsertPc)
    requires Inv(s) && t < |s.threads| && s.threads[t] == Insert(n) && (n.Lost? || n.Back? || n.Uncharge?)
    ensures n.ins.e < |s.entries| && (n.Lost? || n.Back? ==> n.cur < s.size) && Inv(GoBack(s, t, n))
  {
    hide Inv;
    InvThread(s, t);
    QuietStep(s, GoBack(s, t, n), t, GoBack(s, t, n).threads[t]);
  }

  lemma DropProtoStep(s: State, t: nat, ins: Ins)
    requires Inv(s) && t < |s.threads| && s.threads[t] == Insert(DropProto(ins))
    ensures ins.e < |s.entries| && Inv(GoBack(s, t, DropProto(ins)))
  {
    hide Inv;
    InvReady(s, t, |s.handles|, ins.e);
    OwnEntryStep(s, GoBack(s, t, DropProto(ins)), t, Idle, ins.e);
  }

  lemma BackStep(s: State, t: nat, n: InsertPc)
    requires Inv(s) && t < |s.threads| && s.threads[t] == Insert(n) && Backing(n)
    ensures n.ins.e < |s.entries| && (n.Lost? || n.Back? ==> n.cur < s.size) && Inv(GoBack(s, t, n))
  {
    hide Inv, GoBack;
    if n.Alone? { AloneStep(s, t, n.ins); }
    else if n.DropProto? { DropProtoStep(s, t, n.ins); }
    else { RestOfBackStep(s, t, n); }
  }

  // ---------------------------------------------------------------- starting an operation

  lemma RefStep(s: State, t: nat, h: nat, e: nat)
    requires Inv(s) && t < |s.threads| && s.threads[t].Idle? && (h, e) in s.users && h < |s.handles|
    ensures Inv(DoRef(s, h, e))
  {
    hide Inv;
    InvReady(s, t, h, |s.entries|);
    assert s.users[(h, e)] > 0;
    SoundKeepsInv(s, DoRef(s, h, e), t, h, |s.entries|);
  }

  /** A reference is given back and the entry may have to be freed. */
  lemma ReleaseToTake(s: State, t: nat, h: nat, e: nat, useful: bool, eraseIfLast: bool)
    requires Inv(s) && t < |s.threads| && s.threads[t].Idle? && (h, e) in s.users && h < |s.handles|
    requires eraseIfLast || s.handles[h].meta.st.Invisible?
    ensures Inv(DoRelease(s, t, h, e, useful, eraseIfLast))
  {
    hide Inv;
    InvReady(s, t, h, |s.entries|);
    assert s.users[(h, e)] > 0;
    SoundKeepsInv(s, DoRelease(s, t, h, e, useful, eraseIfLast), t, h, |s.entries|);
  }

  /** A reference to a visible entry is given back, and that is all. */
  lemma ReleaseOnly(s: State, t: nat, h: nat, e: nat, useful: bool)
    requires Inv(s) && t < |s.threads| && s.threads[t].Idle? && (h, e) in s.users && h < |s.handles|
    requires !s.handles[h].meta.st.Invisible?
    ensures Inv(DoRelease(s, t, h, e, useful, false))
  {
    hide Inv;
    InvReady(s, t, h, |s.entries|);
    assert s.users[(h, e)] > 0;
    SoundKeepsInv(s, DoRelease(s, t, h, e, useful, false), t, h, |s.entries|);
  }

  lemma ReleaseStep(s: State, t: nat, h: nat, e: nat, useful: bool, eraseIfLast: bool)
    requires Inv(s) && t < |s.threads| && s.threads[t].Idle? && (h, e) in s.users && h < |s.handles|
    ensures Inv(DoRelease(s, t, h, e, useful, eraseIfLast))
  {
    hide Inv, DoRelease;
    if eraseIfLast || s.handles[h].meta.st.Invisible? {
      ReleaseToTake(s, t, h, e, useful, eraseIfLast);
    } else {
      ReleaseOnly(s, t, h, e, useful);
    }
  }

  /** Room for an entry, before it is handed in. */
  lemma GrowEntries(s: State, key: Key, c: nat)
    requires Inv(s)
    ensures Inv(s.(entries := s.entries + [Entry(key, c, Returned, 0)]))
  {
    var r := s.(entries := s.entries + [Entry(key, c, Returned, 0)]);
    forall t: nat | t < |s.threads| ensures ThreadOk(r, t) { assert ThreadOk(s, t); }
    forall h: nat | h < |r.handles| ensures HandleOk(r, h) { assert HandleOk(s, h); }
    forall e: nat | e < |r.entries| ensures EntryOk(r, e) {
      if e < |s.entries| { assert EntryOk(s, e); }
    }
  }

  lemma StartInsertStep(s: State, t: nat, ins: Ins)
    requires Inv(s) && t < |s.threads| && s.threads[t].Idle? && ins.e == |s.entries|
    requires 1 <= ins.countdown <= 3 && (!ins.table ==> ins.wantsHandle && !ins.needSlot)
    ensures Inv(DoStartInsert(s, t, ins))
  {
    var g := s.(entries := s.entries + [Entry(ins.key, ins.c, Returned, 0)]);
    var r := DoStartInsert(s, t, ins);
    GrowEntries(s, ins.key, ins.c);
    InvAfter(g, r, t, r.threads[t], |s.handles|, ins.e);
  }

  lemma StartStep(s: State, t: nat, call: Call)
    requires Inv(s) && t < |s.threads| && s.threads[t].Idle? && CallOk(s, call)
    ensures Inv(DoStart(s, t, call))
  {
    var r := DoStart(s, t, call);
    match call
    case CallRef(h, e) => RefStep(s, t, h, e);
    case CallRelease(h, e, useful, eraseIfLast) => ReleaseStep(s, t, h, e, useful, eraseIfLast);
    case CallInsert(key, c, countdown, wantsHandle, capacity, strict) =>
      StartInsertStep(s, t, Ins(|s.entries|, key, c, countdown, wantsHandle, true, false,
                                s.occupancy >= s.occLimit, capacity, strict));
    case CallStandalone(key, c, uncharged, capacity, strict) =>
      StartInsertStep(s, t, Ins(|s.entries|, key, c, 1, true, false, uncharged, false, capacity, strict));
    case _ => QuietStep(s, r, t, r.threads[t]);
  }

  lemma GoStep(s: State, t: nat)
    requires Inv(s) && t < |s.threads|
    ensures InBounds(s, s.threads[t]) && Inv(DoGo(s, t))
  {
    hide Inv;
    InvThread(s, t);
    match s.threads[t]
    case Idle =>
    case Lookup(f) => LookupStep(s, t, f);
    case Erase(f) => EraseStep(s, t, f);
    case Take(k) => TakeStep(s, t, k);
    case Remove(p) => RemoveStep(s, t, p);
    case Evict(v) => EvictStep(s, t, v);
    case Insert(n) =>
      if Placing(n) { PlaceStep(s, t, n); } else if Backing(n) { BackStep(s, t, n); } else { ChargeStep(s, t, n); }
  }

  lemma {:induction false} RunInv(trace: seq<State>, steps: seq<Step>, i: nat)
    requires Run(trace, steps) && i < |trace|
    ensures Inv(trace[i])
  {
    if i == 0 {
      InitInv(trace[0]);
    } else {
      RunInv(trace, steps, i - 1);
      match steps[i - 1]
      case Start(t, call) => StartStep(trace[i - 1], t, call);
      case Go(t) => GoStep(trace[i - 1], t);
    }
  }

  // ---------------------------------------------------------------- what holds on every run

  /** The thread is between winning a handle's Construction state and giving it up. */
  predicate Owns(pc: Pc, h: nat) {
    match pc
    case Insert(Write(_, _, g)) => g == h
    case Insert(Publish(_, _, g)) => g == h
    case Remove(Roll(g, _, _, _)) => g == h
    case Remove(Dispose(g, _, _)) => g == h
    case Remove(Mark(g, _, _)) => g == h
    case Remove(DisposeAlone(g, _)) => g == h
    case _ => false
  }

  /** References a thread has acquired on h and neither given back nor handed to its caller. */
  function Transient(pc: Pc, h: nat): nat {
    match pc
    case Lookup(f) => if f.h == h && (f.Compare? || f.Undo?) then 1 else 0
    case Erase(f) => if f.h == h && (f.Compare? || f.Undo?) then 1 else 0
    case Take(Hidden(_, _, g, _)) => if g == h then 1 else 0
    case Insert(Match(ins, _, g)) => if g == h then ins.countdown else 0
    case Insert(Unboost(ins, _, g)) => if g == h then ins.countdown else 0
    case _ => 0
  }

  function Transients(ths: seq<Pc>, h: nat): seq<int> {
    seq(|ths|, i requires 0 <= i < |ths| => Transient(ths[i], h))
  }

  /** The thread is about to write a handle's data or to free it. */
  predicate Touches(pc: Pc, h: nat) {
    match pc
    case Insert(Write(_, _, g)) => g == h
    case Remove(Dispose(g, _, _)) => g == h
    case Remove(DisposeAlone(g, _)) => g == h
    case _ => false
  }

  lemma OwnersAreGrips(pc: Pc, h: nat)
    ensures Owns(pc, h) <==> On(GripOf(pc), h).store + On(GripOf(pc), h).bare == 1
    ensures On(GripOf(pc), h).hold == Transient(pc, h)
    ensures !Owns(pc, h) ==> On(GripOf(pc), h).store == 0 && On(GripOf(pc), h).bare == 0
  {
  }

  /** A handle is in Construction exactly when one thread owns it, and never has two owners. */
  lemma OneOwner(trace: seq<State>, steps: seq<Step>, i: nat, h: nat)
    requires Run(trace, steps) && i < |trace| && h < |trace[i].handles|
    ensures trace[i].handles[h].meta.st.Construction? <==>
      exists t: nat :: t < |trace[i].threads| && Owns(trace[i].threads[t], h)
    ensures forall t: nat, u: nat ::
      (t < |trace[i].threads| && u < |trace[i].threads| && Owns(trace[i].threads[t], h) && Owns(trace[i].threads[u], h)
       ==> t == u)
  {
    RunInv(trace, steps, i);
    var s := trace[i];
    assert HandleOk(s, h);
    forall t: nat, u: nat | t < |s.threads| && u < |s.threads| && Owns(s.threads[t], h) && Owns(s.threads[u], h)
      ensures t == u
    {
      OwnersAreGrips(s.threads[t], h);
      OwnersAreGrips(s.threads[u], h);
      if t != u { ClaimsOfTwo(s, t, u, h); }
    }
    forall t: nat | t < |s.threads| && Owns(s.threads[t], h) ensures s.handles[h].meta.st.Construction? {
      OwnersAreGrips(s.threads[t], h);
      ClaimsAfter(s, s, t, s.threads[t], h);
    }
    if s.handles[h].meta.st.Construction? {
      var part := if Claims(s, h).store > 0 then Store else Bare;
      var t := SumPositive(Parts(s.threads, h, part));
      OwnersAreGrips(s.threads[t], h);
      assert Owns(s.threads[t], h);
    }
  }

  /** In a Shareable state the counters stand for the callers' references and the transient ones, no others. */
  lemma ReferencesExact(trace: seq<State>, steps: seq<Step>, i: nat, h: nat)
    requires Run(trace, steps) && i < |trace| && h < |trace[i].handles|
    ensures var s, m := trace[i], trace[i].handles[h].meta;
      Shareable(m) ==> m.acq - m.rel == s.users[(h, s.handles[h].entry)] + Sum(Transients(s.threads, h))
  {
    RunInv(trace, steps, i);
    var s := trace[i];
    assert HandleOk(s, h);
    forall t: nat | t < |s.threads| ensures On(GripOf(s.threads[t]), h).hold == Transient(s.threads[t], h) {
      OwnersAreGrips(s.threads[t], h);
    }
    assert Transients(s.threads, h) == Parts(s.threads, h, Hold);
  }

  /** Whoever is about to write or free a handle's data is alone with it: no caller has a reference, no thread
      a transient one, and no other thread owns it. */
  lemma TouchedAlone(trace: seq<State>, steps: seq<Step>, i: nat, t: nat, h: nat)
    requires Run(trace, steps) && i < |trace| && t < |trace[i].threads| && Touches(trace[i].threads[t], h)
    ensures h < |trace[i].handles| && forall e: nat :: (h, e) !in trace[i].users
    ensures forall u: nat :: u < |trace[i].threads| ==> Transient(trace[i].threads[u], h) == 0
    ensures forall u: nat :: u < |trace[i].threads| && u != t ==> !Owns(trace[i].threads[u], h)
  {
    RunInv(trace, steps, i);
    var s := trace[i];
    assert ThreadOk(s, t) && HandleOk(s, h);
    ClaimsAfter(s, s, t, s.threads[t], h);
    forall u: nat | u < |s.threads| ensures Transient(s.threads[u], h) == 0 && (u != t ==> !Owns(s.threads[u], h)) {
      OwnersAreGrips(s.threads[u], h);
      ClaimsAfter(s, s, u, s.threads[u], h);
      if u != t { ClaimsOfTwo(s, t, u, h); }
    }
  }

  /** What a caller has a reference to is there: stored in that handle and not disposed of. */
  lemma ReferencedIsLive(trace: seq<State>, steps: seq<Step>, i: nat, h: nat, e: nat)
    requires Run(trace, steps) && i < |trace| && (h, e) in trace[i].users
    ensures h < |trace[i].handles| && trace[i].handles[h].entry == e && Shareable(trace[i].handles[h].meta)
    ensures e < |trace[i].entries| && trace[i].entries[e].loc == InHandle(h) && trace[i].entries[e].disposals == 0
  {
    RunInv(trace, steps, i);
    assert HandleOk(trace[i], h) && EntryOk(trace[i], e);
  }

  /** A disposal happens at most once per entry, and is final. */
  lemma {:induction false} DisposedOnce(trace: seq<State>, steps: seq<Step>, i: nat, j: nat, e: nat)
    requires Run(trace, steps) && i <= j < |trace| && e < |trace[i].entries|
    ensures trace[i].entries[e].disposals == (if trace[i].entries[e].loc.Gone? then 1 else 0)
    ensures e < |trace[j].entries| && (trace[i].entries[e].loc.Gone? ==> trace[j].entries[e].loc.Gone?)
    decreases j - i
  {
    RunInv(trace, steps, i);
    assert EntryOk(trace[i], e);
    if i < j {
      GoneStays(trace[i], steps[i], e);
      DisposedOnce(trace, steps, i + 1, j, e);
    }
  }

  lemma InsertKeepsGone(s: State, t: nat, n: InsertPc, e: nat)
    requires Shaped(s) && t < |s.threads| && s.threads[t] == Insert(n) && ThreadOk(s, t) && e < |s.entries|
    ensures e < |DoGo(s, t).entries| && (s.entries[e].loc.Gone? ==> DoGo(s, t).entries[e].loc.Gone?)
  {
  }

  lemma RemoveKeepsGone(s: State, t: nat, p: RemovePc, e: nat)
    requires Shaped(s) && t < |s.threads| && RemoveInBounds(s, p) && e < |s.entries|
    ensures e < |GoRemove(s, t, p).entries| && (s.entries[e].loc.Gone? ==> GoRemove(s, t, p).entries[e].loc.Gone?)
  {
  }

  lemma FindKeepsEntries(s: State, t: nat)
    requires Shaped(s) && t < |s.threads| && ThreadOk(s, t) && !s.threads[t].Insert? && !s.threads[t].Remove?
    ensures DoGo(s, t).entries == s.entries
  {
  }

  lemma GoneStaysGo(s: State, t: nat, e: nat)
    requires Shaped(s) && t < |s.threads| && ThreadOk(s, t) && e < |s.entries|
    ensures e < |DoGo(s, t).entries| && (s.entries[e].loc.Gone? ==> DoGo(s, t).entries[e].loc.Gone?)
  {
    hide GoRemove, GoPlace, GoCharge, GoBack, GoEvict, GoTake, GoLookup, GoErase;
    match s.threads[t]
    case Insert(n) => InsertKeepsGone(s, t, n, e);
    case Remove(p) => RemoveKeepsGone(s, t, p, e);
    case _ => FindKeepsEntries(s, t);
  }

  lemma GoneStaysStart(s: State, t: nat, call: Call, e: nat)
    requires Shaped(s) && t < |s.threads| && s.threads[t].Idle? && CallOk(s, call) && e < |s.entries|
    ensures e < |DoStart(s, t, call).entries|
    ensures s.entries[e].loc.Gone? ==> DoStart(s, t, call).entries[e].loc.Gone?
  {
  }

  lemma GoneStays(s: State, step: Step, e: nat)
    requires Inv(s) && Enabled(s, step) && e < |s.entries|
    ensures e < |Apply(s, step).entries|
    ensures s.entries[e].loc.Gone? ==> Apply(s, step).entries[e].loc.Gone?
  {
    hide Inv, DoGo, DoStart;
    InvThread(s, step.t);
    match step
    case Start(t, call) => GoneStaysStart(s, t, call, e);
    case Go(t) => GoneStaysGo(s, t, e);
  }

  /** With every thread idle, each entry is stored, disposed of or back with its caller; an entry in a
      standalone handle still has a caller's reference, and so has one in a slot whose counters differ. */
  lemma QuietMeansAccounted(trace: seq<State>, steps: seq<Step>, i: nat, e: nat)
    requires Run(trace, steps) && i < |trace| && e < |trace[i].entries|
    requires forall t: nat :: t < |trace[i].threads| ==> trace[i].threads[t].Idle?
    ensures !trace[i].entries[e].loc.With?
    ensures trace[i].entries[e].loc.InHandle? ==>
      var h := trace[i].entries[e].loc.h;
      && h < |trace[i].handles| && Shareable(trace[i].handles[h].meta)
      && trace[i].users[(h, e)] == Refcount(trace[i].handles[h].meta)
      && (h >= trace[i].size ==> trace[i].users[(h, e)] > 0)
  {
    RunInv(trace, steps, i);
    var s := trace[i];
    assert EntryOk(s, e);
    if s.entries[e].loc.InHandle? {
      var h := s.entries[e].loc.h;
      assert HandleOk(s, h);
      SumZero(Parts(s.threads, h, Hold));
      SumZero(Parts(s.threads, h, Store));
      SumZero(Parts(s.threads, h, Zero));
    }
  }

  /** Every thread can always take its next step. */
  lemma NeverStuck(trace: seq<State>, steps: seq<Step>, i: nat, t: nat)
    requires Run(trace, steps) && i < |trace| && t < |trace[i].threads|
    ensures Enabled(trace[i], Go(t))
  {
    RunInv(trace, steps, i);
    assert ThreadOk(trace[i], t);
  }
}
