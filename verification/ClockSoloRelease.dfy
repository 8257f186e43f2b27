/**
 Ref, Release and EraseUnRefEntries in the concurrent clock table, if nobody interferes.
 */
module ClockSoloRelease {
  import opened Basics
  import opened ClockProbe
  import opened ClockMachine
  import opened ClockSolo
  import opened ClockSoloEvict
  import ClockOwnership

  // ---------------------------------------------------------------- freeing a slot

  /** Slot h is emptied, its entry freed, and both totals are lowered. */
  ghost function Removed(s: State, h: nat, n: nat): State
    requires Shaped(s) && h < s.size == Pow2(n) && s.handles[h].entry < |s.entries|
  {
    Cleared(s, h, n).(occupancy := s.occupancy - 1, usage := s.usage - s.entries[s.handles[h].entry].charge)
  }

  lemma Frees(s: State, t: nat, h: nat, cont: Cont, n: nat) returns (a: nat)
    requires Shaped(s) && s.size == Pow2(n) && t < |s.threads| && h < s.size && s.handles[h].entry < |s.entries|
    requires cont.ToIdle? || cont.ToAll?
    ensures Removed(s, h, n).threads == s.threads
    ensures Goes(TakeOver(s, t, h, cont), t, a, SetPc(Removed(s, h, n), t, Resume(cont, s.size)))
  {
    hide Goes, Cleared;
    var c := s.entries[s.handles[h].entry].charge;
    var b := Clears(s, t, h, cont, n);
    ClearedEmpty(s, h, n);
    ClearedTotals(s, h, n);
    var x := Cleared(s, h, n);
    MarksAndReclaims(x, t, h, c, cont);
    var s1 := SetPc(SetMeta(x, h, OWNED), t, Remove(Mark(h, c, cont)));
    GoesThen(TakeOver(s, t, h, cont), t, b, s1, 3, SetPc(Removed(s, h, n), t, Resume(cont, s.size)));
    a := b + 3;
  }

  /** The slot is given up and the totals are lowered. */
  lemma MarksAndReclaims(x: State, t: nat, h: nat, c: nat, cont: Cont)
    requires Shaped(x) && t < |x.threads| && h < x.size && x.handles[h].meta == EMPTY && (cont.ToIdle? || cont.ToAll?)
    ensures Goes(SetPc(SetMeta(x, h, OWNED), t, Remove(Mark(h, c, cont))), t, 3,
                 SetPc(x.(occupancy := x.occupancy - 1, usage := x.usage - c), t, Resume(cont, x.size)))
  {
    hide Goes;
    var s1, s2 := SetPc(SetMeta(x, h, OWNED), t, Remove(Mark(h, c, cont))), SetPc(x, t, Remove(Reclaim1(h, c, cont)));
    assert SetMeta(SetMeta(x, h, OWNED), h, EMPTY).handles == x.handles;
    SetTwice(x, t, Remove(Mark(h, c, cont)), Remove(Reclaim1(h, c, cont)));
    OneGo(s1, t);
    var o := x.(occupancy := x.occupancy - 1);
    var s3 := SetPc(o, t, Remove(Reclaim2(h, c, cont)));
    SetTwice(o, t, Remove(Reclaim1(h, c, cont)), Remove(Reclaim2(h, c, cont)));
    OneGo(s2, t);
    GoesThen(s1, t, 1, s2, 1, s3);
    var r := o.(usage := x.usage - c);
    SetTwice(r, t, Remove(Reclaim2(h, c, cont)), Resume(cont, x.size));
    OneGo(s3, t);
    GoesThen(s1, t, 2, s3, 1, SetPc(r, t, Resume(cont, x.size)));
  }

  lemma ClearedTotals(s: State, h: nat, n: nat)
    requires Shaped(s) && s.size == Pow2(n) && h < s.size && s.handles[h].entry < |s.entries|
    ensures Cleared(s, h, n).occupancy == s.occupancy && Cleared(s, h, n).usage == s.usage
    ensures Cleared(s, h, n).users == s.users && |Cleared(s, h, n).entries| == |s.entries|
  {
  }

  /** What is different once slot h is freed: displacement counts and totals aside, only the slot and its entry. */
  predicate FreedAt(s: State, r: State, h: nat) {
    && h < |s.handles| == |r.handles| && |r.entries| == |s.entries| && r.users == s.users && r.threads == s.threads
    && r.size == s.size && s.handles[h].entry < |s.entries|
    && r.handles[h] == s.handles[h].(meta := EMPTY, disp := r.handles[h].disp)
    && (forall g: nat :: g < |s.handles| && g != h ==> r.handles[g] == s.handles[g].(disp := r.handles[g].disp))
    && (forall e: nat :: e < |s.entries| ==>
          if e == s.handles[h].entry then Disposed(s.entries[e], r.entries[e]) else r.entries[e] == s.entries[e])
  }

  lemma RemovedFrees(s: State, h: nat, n: nat)
    requires Shaped(s) && h < s.size == Pow2(n) && s.handles[h].entry < |s.entries|
    ensures FreedAt(s, Removed(s, h, n), h)
  {
    hide Turn, First, Rolled.Lowered;
    var m, e := SetMeta(s, h, OWNED), s.handles[h].entry;
    LoweredOwned(m, s.entries[e].key, h, n);
  }

  // ---------------------------------------------------------------- Release

  /** The reference is given back: useful or not, there is one less; and only a useful one leaves a trace. */
  predicate GivenBack(a: Meta, b: Meta, useful: bool) {
    b.st == a.st && Refcount(b) == Refcount(a) - 1 && (if useful then b.acq == a.acq else b.rel == a.rel)
  }

  /** This was the last reference, and the entry is to go with it. */
  predicate GoesToo(s: State, h: nat, eraseIfLast: bool)
    requires h < |s.handles|
  {
    Refcount(s.handles[h].meta) == 1 && (eraseIfLast || s.handles[h].meta.st.Invisible?)
  }

  /** The state right after the first access, the thread's position aside. */
  function Dropped(s: State, h: nat, e: nat, useful: bool): State
    requires h < |s.handles|
  {
    var m := s.handles[h].meta;
    SetMeta(s, h, if useful then m.(rel := m.rel + 1) else m.(acq := m.acq - 1)).(users := s.users - multiset{(h, e)})
  }

  lemma Returns(s: State, t: nat, h: nat, e: nat, useful: bool, eraseIfLast: bool)
    requires Shaped(s) && t < |s.threads| && s.threads[t].Idle? && (h, e) in s.users && h < |s.handles|
    ensures var m, d := s.handles[h].meta, Dropped(s, h, e, useful);
      && Enabled(s, Start(t, CallRelease(h, e, useful, eraseIfLast)))
      && Apply(s, Start(t, CallRelease(h, e, useful, eraseIfLast)))
         == SetPc(d, t, Take(if eraseIfLast || m.st.Invisible? then Released(h, d.handles[h].meta) else Correct(h, m)))
  {
  }

  lemma Corrects(d: State, t: nat, h: nat, m: Meta)
    requires Shaped(d) && t < |d.threads| && h < |d.handles|
    ensures Goes(SetPc(d, t, Take(Correct(h, m))), t, 1, SetPc(d, t, Idle))
  {
    hide Goes;
    SetTwice(d, t, Take(Correct(h, m)), Idle);
    OneGo(SetPc(d, t, Take(Correct(h, m))), t);
  }

  lemma KeepsEntry(d: State, t: nat, h: nat)
    requires Shaped(d) && t < |d.threads| && h < |d.handles| && Refcount(d.handles[h].meta) != 0
    ensures Goes(SetPc(d, t, Take(Released(h, d.handles[h].meta))), t, 2, SetPc(d, t, Idle))
  {
    hide Goes;
    var m := d.handles[h].meta;
    SetTwice(d, t, Take(Released(h, m)), Take(Correct(h, m)));
    OneGo(SetPc(d, t, Take(Released(h, m))), t);
    Corrects(d, t, h, m);
    GoesThen(SetPc(d, t, Take(Released(h, m))), t, 1, SetPc(d, t, Take(Correct(h, m))), 1, SetPc(d, t, Idle));
  }

  lemma FreesSlot(d: State, t: nat, h: nat, n: nat) returns (a: nat)
    requires Shaped(d) && d.size == Pow2(n) && t < |d.threads| && h < d.size && d.handles[h].entry < |d.entries|
    requires Refcount(d.handles[h].meta) == 0 && Shareable(d.handles[h].meta)
    ensures Removed(d, h, n).threads == d.threads
    ensures Goes(SetPc(d, t, Take(Released(h, d.handles[h].meta))), t, a, SetPc(Removed(d, h, n), t, Idle))
  {
    hide Goes, Removed;
    var m, x := d.handles[h].meta, TakeOver(d, t, h, ToIdle);
    SetTwice(SetMeta(d, h, OWNED), t, Take(Released(h, m)), x.threads[t]);
    OneGo(SetPc(d, t, Take(Released(h, m))), t);
    var b := Frees(d, t, h, ToIdle, n);
    GoesThen(SetPc(d, t, Take(Released(h, m))), t, 1, x, b, SetPc(Removed(d, h, n), t, Idle));
    a := 1 + b;
  }

  /** A standalone handle is deleted, with its entry. */
  function Deleted1(d: State, h: nat): State
    requires h < |d.handles| && d.handles[h].entry < |d.entries|
  {
    var e := d.handles[h].entry;
    SetMeta(DisposeOf(d, e), h, Meta(Deleted, 0, 0)).(usage := d.usage - d.entries[e].charge)
  }

  lemma DeletesAlone(d: State, t: nat, h: nat)
    requires Shaped(d) && t < |d.threads| && d.size <= h < |d.handles| && d.handles[h].entry < |d.entries|
    requires Refcount(d.handles[h].meta) == 0 && Shareable(d.handles[h].meta)
    ensures Goes(SetPc(d, t, Take(Released(h, d.handles[h].meta))), t, 3, SetPc(Deleted1(d, h), t, Idle))
  {
    hide Goes;
    var m, e := d.handles[h].meta, d.handles[h].entry;
    var c := d.entries[e].charge;
    var a, b := SetMeta(d, h, OWNED), SetMeta(DisposeOf(d, e), h, Meta(Deleted, 0, 0));
    var s0, s1 := SetPc(d, t, Take(Released(h, m))), SetPc(a, t, Remove(DisposeAlone(h, e)));
    var s2 := SetPc(b, t, Remove(ReclaimAlone(c)));
    SetTwice(a, t, Take(Released(h, m)), Remove(DisposeAlone(h, e)));
    OneGo(s0, t);
    assert SetMeta(DisposeOf(a, e), h, Meta(Deleted, 0, 0)).handles == b.handles;
    SetTwice(b, t, Remove(DisposeAlone(h, e)), Remove(ReclaimAlone(c)));
    OneGo(s1, t);
    GoesThen(s0, t, 1, s1, 1, s2);
    SetTwice(Deleted1(d, h), t, Remove(ReclaimAlone(c)), Idle);
    OneGo(s2, t);
    GoesThen(s0, t, 2, s2, 1, SetPc(Deleted1(d, h), t, Idle));
  }

  /** What Release leaves: one reference less, and if it was the last and the entry is invisible or to be erased, the
      entry disposed of and its handle empty, or deleted if it is standalone.  Nothing else, displacement counts and
      totals aside. */
  ghost predicate ReleasedTo(s: State, r: State, h: nat, e: nat, useful: bool, eraseIfLast: bool) {
    && h < |s.handles| == |r.handles| && |r.entries| == |s.entries| && r.threads == s.threads && e < |s.entries|
    && r.users == s.users - multiset{(h, e)} && r.handles[h].entry == e
    && (if GoesToo(s, h, eraseIfLast)
        then r.handles[h].meta == (if h < s.size then EMPTY else Meta(Deleted, 0, 0))
          && Disposed(s.entries[e], r.entries[e])
        else GivenBack(s.handles[h].meta, r.handles[h].meta, useful) && r.entries[e] == s.entries[e])
    && (forall g: nat :: g < |s.handles| && g != h ==> r.handles[g] == s.handles[g].(disp := r.handles[g].disp))
    && (forall x: nat :: x < |s.entries| && x != e ==> r.entries[x] == s.entries[x])
  }

  /** A Release that nobody interferes with. */
  lemma ReleaseAlone(trace: seq<State>, steps: seq<Step>, i: nat, t: nat, h: nat, e: nat, useful: bool,
                     eraseIfLast: bool, k: nat)
    returns (n: nat, r: State)
    requires Run(trace, steps) && i < |trace| && trace[0].size == Pow2(k)
    requires t < |trace[i].threads| && trace[i].threads[t].Idle? && (h, e) in trace[i].users
    ensures h < |trace[i].handles| && Enabled(trace[i], Start(t, CallRelease(h, e, useful, eraseIfLast)))
    ensures Goes(Apply(trace[i], Start(t, CallRelease(h, e, useful, eraseIfLast))), t, n, r)
    ensures ReleasedTo(trace[i], r, h, e, useful, eraseIfLast)
  {
    hide Goes, Run, Removed, FreedAt, ClockOwnership.Inv;
    var s := trace[i];
    RunConsistent(trace, steps, i, k);
    ConsistentShaped(s, k);
    ClockOwnership.ReferencedIsLive(trace, steps, i, h, e);
    var m, d := s.handles[h].meta, Dropped(s, h, e, useful);
    Returns(s, t, h, e, useful, eraseIfLast);
    var x;
    if !(eraseIfLast || m.st.Invisible?) {
      Corrects(d, t, h, m);
      n, x := 1, d;
    } else if Refcount(m) != 1 {
      KeepsEntry(d, t, h);
      n, x := 2, d;
    } else if h < s.size {
      n := FreesSlot(d, t, h, k);
      x := Removed(d, h, k);
      RemovedFrees(d, h, k);
      FreedOpen(d, x, h);
    } else {
      DeletesAlone(d, t, h);
      n, x := 3, Deleted1(d, h);
    }
    assert s.threads[t := Idle] == s.threads;
    r := x;
    assert SetPc(x, t, Idle) == x;
  }

  lemma FreedOpen(d: State, x: State, h: nat)
    requires FreedAt(d, x, h)
    ensures h < |d.handles| == |x.handles| && |x.entries| == |d.entries| && x.users == d.users && x.threads == d.threads
    ensures x.handles[h].meta == EMPTY && x.handles[h].entry == d.handles[h].entry < |d.entries|
    ensures Disposed(d.entries[d.handles[h].entry], x.entries[d.handles[h].entry])
    ensures forall g: nat :: g < |d.handles| && g != h ==> x.handles[g] == d.handles[g].(disp := x.handles[g].disp)
    ensures forall e: nat :: e < |d.entries| && e != d.handles[h].entry ==> x.entries[e] == d.entries[e]
  {
  }

  /** Ref adds one reference. */
  lemma RefAlone(trace: seq<State>, steps: seq<Step>, i: nat, t: nat, h: nat, e: nat)
    requires Run(trace, steps) && i < |trace| && t < |trace[i].threads| && trace[i].threads[t].Idle?
    requires (h, e) in trace[i].users
    ensures h < |trace[i].handles| && Enabled(trace[i], Start(t, CallRef(h, e)))
    ensures var s, r := trace[i], Apply(trace[i], Start(t, CallRef(h, e)));
      && r.users == s.users + multiset{(h, e)} && r == s.(handles := r.handles, users := r.users)
      && |r.handles| == |s.handles| && Refcount(r.handles[h].meta) == Refcount(s.handles[h].meta) + 1
      && r.handles[h] == s.handles[h].(meta := s.handles[h].meta.(acq := r.handles[h].meta.acq))
      && forall g: nat :: g < |s.handles| && g != h ==> r.handles[g] == s.handles[g]
  {
    hide ClockOwnership.Inv;
    ClockOwnership.ReferencedIsLive(trace, steps, i, h, e);
    ClockOwnership.RunInv(trace, steps, i);
    InvShaped(trace[i]);
  }

  // ---------------------------------------------------------------- EraseUnRefEntries

  /** Slot h holds an entry that nobody references. */
  predicate Unused(s: State, h: nat) {
    h < |s.handles| && Shareable(s.handles[h].meta) && Refcount(s.handles[h].meta) == 0
  }

  ghost predicate UnusedIn(s: State, e: nat, i: nat) {
    exists h: nat :: h < i && Unused(s, h) && s.handles[h].entry == e
  }

  /** The slots below i have been dealt with: their unreferenced entries are gone, and nothing else is. */
  ghost predicate ClearedUpTo(s: State, r: State, i: nat) {
    && r.size == s.size && |r.handles| == |s.handles| && |r.entries| == |s.entries|
    && r.users == s.users && r.threads == s.threads
    && (forall h: nat :: h < |s.handles| ==>
          r.handles[h] == s.handles[h].(meta := if h < i && Unused(s, h) then EMPTY else s.handles[h].meta,
                                        disp := r.handles[h].disp))
    && (forall e: nat :: e < |s.entries| ==>
          if UnusedIn(s, e, i) then Disposed(s.entries[e], r.entries[e]) else r.entries[e] == s.entries[e])
  }

  lemma ClearedStart(s: State)
    ensures ClearedUpTo(s, s, 0)
  {
  }

  lemma ClearedSkips(s: State, m: State, i: nat)
    requires ClearedUpTo(s, m, i) && !Unused(s, i)
    ensures ClearedUpTo(s, m, i + 1)
  {
    var j := i + 1;
    forall e: nat | e < |s.entries| ensures UnusedIn(s, e, j) == UnusedIn(s, e, i) {
      if UnusedIn(s, e, j) {
        var h: nat :| h < j && Unused(s, h) && s.handles[h].entry == e;
        assert h < i;
      }
    }
  }

  lemma ClearedMore(s: State, m: State, r: State, i: nat)
    requires ClearedUpTo(s, m, i) && Unused(s, i) && FreedAt(m, r, i) && Owned(s)
    ensures ClearedUpTo(s, r, i + 1)
  {
    var j := i + 1;
    var x := s.handles[i].entry;
    assert m.handles[i].entry == x;
    forall e: nat | e < |s.entries|
      ensures if UnusedIn(s, e, j) then Disposed(s.entries[e], r.entries[e]) else r.entries[e] == s.entries[e]
    {
      if e == x {
        assert UnusedIn(s, e, j);
        if UnusedIn(s, e, i) { assert false; }
      } else if UnusedIn(s, e, j) {
        var h: nat :| h < j && Unused(s, h) && s.handles[h].entry == e;
        assert UnusedIn(s, e, i);
      }
    }
  }

  lemma SkipsSlot(m: State, t: nat, i: nat)
    requires Shaped(m) && t < |m.threads| && i < m.size && !Unused(m, i)
    ensures Goes(SetPc(m, t, Take(AllAt(i))), t, 1, SetPc(m, t, Take(AllAt(i + 1))))
  {
    hide Goes;
    SetTwice(m, t, Take(AllAt(i)), Take(AllAt(i + 1)));
    OneGo(SetPc(m, t, Take(AllAt(i))), t);
  }

  lemma ErasesSlot(m: State, t: nat, i: nat, n: nat) returns (a: nat)
    requires Shaped(m) && m.size == Pow2(n) && t < |m.threads| && i < m.size && Unused(m, i)
    requires m.handles[i].entry < |m.entries|
    ensures Removed(m, i, n).threads == m.threads
    ensures Goes(SetPc(m, t, Take(AllAt(i))), t, a, SetPc(Removed(m, i, n), t, Take(AllAt(i + 1))))
  {
    hide Goes, Removed;
    var x, y := m.handles[i].meta, TakeOver(m, t, i, ToAll(i));
    var s0, s1 := SetPc(m, t, Take(AllAt(i))), SetPc(m, t, Take(AllSeen(i, x)));
    SetTwice(m, t, Take(AllAt(i)), Take(AllSeen(i, x)));
    OneGo(s0, t);
    SetTwice(SetMeta(m, i, OWNED), t, Take(AllSeen(i, x)), y.threads[t]);
    OneGo(s1, t);
    GoesThen(s0, t, 1, s1, 1, y);
    var b := Frees(m, t, i, ToAll(i), n);
    GoesThen(s0, t, 2, y, b, SetPc(Removed(m, i, n), t, Take(AllAt(i + 1))));
    a := 2 + b;
  }

  lemma {:induction false} ErasesFrom(s: State, m: State, t: nat, i: nat, n: nat) returns (a: nat, r: State)
    requires Shaped(s) && s.size == Pow2(n) && t < |s.threads| && i <= s.size && ClearedUpTo(s, m, i) && Owned(s)
    ensures ClearedUpTo(s, r, s.size)
    ensures Goes(SetPc(m, t, Take(AllAt(i))), t, a, SetPc(r, t, Idle))
    decreases s.size - i
  {
    hide Goes, ClearedUpTo, Owned, Removed, FreedAt;
    ClearedShape(s, m, i);
    var s0 := SetPc(m, t, Take(AllAt(i)));
    if i == s.size {
      SetTwice(m, t, Take(AllAt(i)), Idle);
      OneGo(s0, t);
      a, r := 1, m;
    } else {
      SameUnused(s, m, i);
      var b, x := 1, m;
      if Unused(m, i) {
        OwnedAt(s, i);
        b := ErasesSlot(m, t, i, n);
        x := Removed(m, i, n);
        RemovedFrees(m, i, n);
        ClearedMore(s, m, x, i);
      } else {
        SkipsSlot(m, t, i);
        ClearedSkips(s, m, i);
      }
      var c;
      c, r := ErasesFrom(s, x, t, i + 1, n);
      ClearedShape(s, x, i + 1);
      ClearedShape(s, r, s.size);
      GoesThen(s0, t, b, SetPc(x, t, Take(AllAt(i + 1))), c, SetPc(r, t, Idle));
      a := b + c;
    }
  }

  lemma ClearedShape(s: State, m: State, i: nat)
    requires ClearedUpTo(s, m, i)
    ensures m.size == s.size && |m.handles| == |s.handles| && |m.entries| == |s.entries| && m.threads == s.threads
  {
  }

  lemma SameUnused(s: State, m: State, i: nat)
    requires ClearedUpTo(s, m, i) && i < |s.handles|
    ensures Unused(m, i) <==> Unused(s, i)
    ensures m.handles[i].entry == s.handles[i].entry
  {
  }

  /** An EraseUnRefEntries that nobody interferes with frees exactly the entries in the table that nobody references. */
  lemma EraseAllAlone(trace: seq<State>, steps: seq<Step>, i: nat, t: nat, k: nat) returns (n: nat, r: State)
    requires Run(trace, steps) && i < |trace| && trace[0].size == Pow2(k)
    requires t < |trace[i].threads| && trace[i].threads[t].Idle?
    ensures Enabled(trace[i], Start(t, CallEraseAll))
    ensures Goes(Apply(trace[i], Start(t, CallEraseAll)), t, n, r) && ClearedUpTo(trace[i], r, trace[i].size)
  {
    hide Goes, ClearedUpTo, Owned, Run, Consistent, ClockOwnership.Inv;
    var s := trace[i];
    RunConsistent(trace, steps, i, k);
    ConsistentShaped(s, k);
    ClockOwnership.RunInv(trace, steps, i);
    InvOwned(s);
    ClearedStart(s);
    var x;
    n, x := ErasesFrom(s, s, t, 0, k);
    ClearedShape(s, x, s.size);
    r := x;
    assert s.threads[t := Idle] == s.threads;
    assert SetPc(x, t, Idle) == x;
  }
}
