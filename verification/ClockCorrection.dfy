/**
 CorrectNearOverflow comes after the reference has been given back.

 By then a standalone handle may be gone: whoever gives the last reference back deletes it.  The guard of the
 correction decides whether the handle's word is accessed once more.
 */
module ClockCorrection {
  import opened Basics
  import opened ClockProbe
  import opened ClockMachine
  import opened ClockOwnership
  import opened ClockPaths
  import opened Sums
  import ClockMeta

  // ---------------------------------------------------------------- what can happen to a standalone handle

  /** Nobody but callers holds references to a standalone handle. */
  lemma NoneHeld(s: State, h: nat)
    requires Inv(s) && h >= s.size
    ensures Claims(s, h).hold == 0
  {
    forall v: nat | v < |s.threads| ensures Parts(s.threads, h, Hold)[v] == 0 { assert ThreadOk(s, v); }
    SumZero(Parts(s.threads, h, Hold));
  }

  /** Thread v owns the standalone handle: its next step deletes it. */
  lemma OwnerDeletes(s: State, h: nat) returns (v: nat)
    requires Inv(s) && s.size <= h < |s.handles| && s.handles[h].meta.st.Construction?
    ensures v < |s.threads| && s.threads[v].Remove? && s.threads[v].r.DisposeAlone? && s.threads[v].r.h == h
    ensures Enabled(s, Go(v))
  {
    assert HandleOk(s, h);
    v := SumPositive(Parts(s.threads, h, Store));
    assert ThreadOk(s, v);
  }

  lemma DeletesNow(s: State, v: nat, h: nat)
    requires Shaped(s) && v < |s.threads| && InBounds(s, s.threads[v])
    requires s.threads[v].Remove? && s.threads[v].r.DisposeAlone? && s.threads[v].r.h == h
    ensures h < |s.handles| && h < |DoGo(s, v).handles| && DoGo(s, v).handles[h].meta.st.Deleted?
    ensures DoGo(s, v).threads == s.threads[v := DoGo(s, v).threads[v]]
  {
  }

  /** An unreferenced standalone handle has a thread that is about to take it over. */
  lemma TakerTakes(s: State, h: nat) returns (v: nat)
    requires Inv(s) && s.size <= h < |s.handles| && s.handles[h].meta.st.Invisible? && Refcount(s.handles[h].meta) == 0
    ensures v < |s.threads| && s.threads[v] == Take(Released(h, s.handles[h].meta)) && Enabled(s, Go(v))
  {
    assert HandleOk(s, h);
    NoneHeld(s, h);
    v := SumPositive(Parts(s.threads, h, Zero));
    assert ThreadOk(s, v);
  }

  lemma TakesNow(s: State, v: nat, h: nat)
    requires Shaped(s) && v < |s.threads| && s.size <= h < |s.handles| && Shareable(s.handles[h].meta)
    requires s.threads[v] == Take(Released(h, s.handles[h].meta)) && Refcount(s.handles[h].meta) == 0
    ensures var r := DoGo(s, v);
      r.handles == s.handles[h := s.handles[h].(meta := OWNED)] && r.threads == s.threads[v := r.threads[v]]
  {
  }

  /** A caller gives a reference back, on thread u. */
  lemma GivesBack(s: State, u: nat, h: nat)
    requires Inv(s) && u < |s.threads| && s.threads[u].Idle? && s.size <= h < |s.handles|
    requires s.handles[h].meta.st.Invisible? && Refcount(s.handles[h].meta) > 0
    ensures var e, m := s.handles[h].entry, s.handles[h].meta;
      && Enabled(s, Start(u, CallRelease(h, e, true, false)))
      && var r := Apply(s, Start(u, CallRelease(h, e, true, false)));
         && r.handles == s.handles[h := s.handles[h].(meta := m.(rel := m.rel + 1))]
         && r.threads == s.threads[u := Take(Released(h, m.(rel := m.rel + 1)))] && r.size == s.size
  {
    NoneHeld(s, h);
    assert HandleOk(s, h);
  }

  /** If others are left it goes on to the correction, and is done. */
  lemma GoesOn(s: State, u: nat, h: nat, m: Meta)
    requires Shaped(s) && u < |s.threads| && h < |s.handles| && s.threads[u] == Take(Released(h, m)) && Refcount(m) != 0
    ensures Leads(s, [Go(u), Go(u)], s.(threads := s.threads[u := Idle]))
  {
    var s1 := DoGo(s, u);
    assert s1 == s.(threads := s.threads[u := Take(Correct(h, m))]);
    var s2 := DoGo(s1, u);
    assert s2.threads == s.threads[u := Idle];
    OneStep(s1, Go(u));
    assert [Go(u), Go(u)][1..] == [Go(u)];
  }

  /** From any reachable state others can have a standalone handle deleted before thread t, which is about to run the
      correction on it, goes on. */
  lemma {:induction false} OthersDelete(s: State, t: nat, u: nat, h: nat) returns (path: seq<Step>, r: State)
    requires Inv(s) && t < |s.threads| && u < |s.threads| && u != t && s.threads[u].Idle?
    requires s.threads[t].Take? && s.threads[t].k.Correct? && s.size <= h < |s.handles|
    ensures Leads(s, path, r) && t < |r.threads| && r.threads[t] == s.threads[t]
    ensures h < |r.handles| && r.handles[h].meta.st.Deleted?
    decreases if s.handles[h].meta.st.Invisible? && Refcount(s.handles[h].meta) > 0 then Refcount(s.handles[h].meta) + 1
              else if s.handles[h].meta.st.Invisible? then 1 else 0
  {
    hide Inv, Leads, Enabled, Apply;
    var m := s.handles[h].meta;
    AloneStates(s, h);
    if m.st.Deleted? {
      Stay(s);
      path, r := [], s;
    } else if m.st.Construction? {
      var v := OwnerDeletes(s, h);
      path, r := [Go(v)], GoAs(s, v);
      DeletesNow(s, v, h);
      OneStep(s, Go(v));
    } else if Refcount(m) == 0 {
      var v := TakerTakes(s, h);
      var s1 := GoAs(s, v);
      InvThread(s, v);
      TakesNow(s, v, h);
      OneStep(s, Go(v));
      StepInv(s, Go(v));
      path, r := AfterOneMore(s, [Go(v)], s1, t, h);
    } else {
      var e := s.handles[h].entry;
      GivesBack(s, u, h);
      var go := Start(u, CallRelease(h, e, true, false));
      var s1 := Apply(s, go);
      OneStep(s, go);
      StepInv(s, go);
      var m1 := m.(rel := m.rel + 1);
      InvThread(s1, u);
      if Refcount(m1) == 0 {
        GoEnabled(s1, u);
        var s2 := GoAs(s1, u);
        TakesNow(s1, u, h);
        Follow(s, [go], s1, Go(u));
        assert [go] + [Go(u)] == [go, Go(u)];
        StepInv(s1, Go(u));
        path, r := AfterOneMore(s, [go, Go(u)], s2, t, h);
      } else {
        GoesOn(s1, u, h, m1);
        var s3 := s1.(threads := s1.threads[u := Idle]);
        LeadsInv(s1, [Go(u), Go(u)], s3);
        LeadsThen(s, [go], s1, [Go(u), Go(u)], s3);
        var more;
        more, r := OthersDelete(s3, t, u, h);
        LeadsThen(s, [go] + [Go(u), Go(u)], s3, more, r);
        path := [go] + [Go(u), Go(u)] + more;
      }
    }
  }

  /** The states a standalone handle can be in. */
  lemma AloneStates(s: State, h: nat)
    requires Inv(s) && s.size <= h < |s.handles|
    ensures var m := s.handles[h].meta; m.st.Deleted? || m.st.Construction? || (m.st.Invisible? && Refcount(m) >= 0)
  {
    assert HandleOk(s, h);
    NoneHeld(s, h);
  }

  /** The handle has been taken over; one step more deletes it. */
  lemma AfterOneMore(s: State, p: seq<Step>, m: State, t: nat, h: nat) returns (path: seq<Step>, r: State)
    requires Leads(s, p, m) && Inv(m) && m.size <= h < |m.handles| && m.handles[h].meta.st.Construction?
    requires t < |s.threads| && t < |m.threads| && m.threads[t] == s.threads[t] && s.threads[t].Take?
    ensures Leads(s, path, r) && t < |r.threads| && r.threads[t] == s.threads[t]
    ensures h < |r.handles| && r.handles[h].meta.st.Deleted?
  {
    hide Inv, Leads;
    var v := OwnerDeletes(m, h);
    Follow(s, p, m, Go(v));
    DeletesNow(m, v, h);
    path, r := p + [Go(v)], Apply(m, Go(v));
  }

  // ---------------------------------------------------------------- when the access is safe

  /** Thread t is about to access the word of a handle that has been deleted. */
  ghost predicate TouchesDeleted(s: State, t: nat) {
    && t < |s.threads| && s.threads[t].Take? && s.threads[t].k.Correct? && ClockMeta.Fires(s.threads[t].k.seen)
    && s.threads[t].k.h < |s.handles| && s.handles[s.threads[t].k.h].meta.st.Deleted?
  }

  /** A slot of the table is never deleted. */
  lemma TableStays(s: State, h: nat)
    requires Inv(s) && h < s.size
    ensures h < |s.handles| && !s.handles[h].meta.st.Deleted?
  {
    assert HandleOk(s, h);
  }

  /** Until thread t goes on, it is about to access a handle that may have been deleted by then, if and only if the
      handle is standalone and the guard fires on the word that was seen. */
  lemma CorrectionSafeIff(trace: seq<State>, steps: seq<Step>, i: nat, t: nat, u: nat)
    requires Run(trace, steps) && i < |trace| && t < |trace[i].threads| && u < |trace[i].threads| && u != t
    requires trace[i].threads[t].Take? && trace[i].threads[t].k.Correct? && trace[i].threads[u].Idle?
    ensures var s, k := trace[i], trace[i].threads[t].k;
      (forall path: seq<Step>, r: State | Leads(s, path, r) && t < |r.threads| && r.threads[t] == s.threads[t] ::
         !TouchesDeleted(r, t))
      <==> k.h < s.size || !ClockMeta.Fires(k.seen)
  {
    hide Inv, Leads;
    var s, k := trace[i], trace[i].threads[t].k;
    RunInv(trace, steps, i);
    InvThread(s, t);
    if k.h < s.size || !ClockMeta.Fires(k.seen) {
      forall path: seq<Step>, r: State | Leads(s, path, r) && t < |r.threads| && r.threads[t] == s.threads[t]
        ensures !TouchesDeleted(r, t)
      {
        LeadsInv(s, path, r);
        if k.h < s.size { TableStays(r, k.h); }
      }
    } else {
      var path, r := OthersDelete(s, t, u, k.h);
      assert TouchesDeleted(r, t);
    }
  }

  // ---------------------------------------------------------------- a run that gets there

  const KEY: Key := Key(0, 0)

  /** Two threads, a table of one slot, and entry 0 in a standalone handle with a - r references, all of them
      callers'. */
  function Alone1(a: nat, r: nat, pc: Pc): State
    requires r <= a
  {
    State(1, 0, 0, [Handle(EMPTY, 0, 0), Handle(Meta(Invisible, a, r), 0, 0)],
          [Entry(KEY, 5, InHandle(1), 0)], multiset{}[(1, 0) := a - r], [pc, Idle], 5, 0, 0)
  }

  function Fresh(): State {
    State(1, 0, 0, [Handle(EMPTY, 0, 0)], [], multiset{}, [Idle, Idle], 0, 0, 0)
  }

  /** CreateStandalone, from the start. */
  lemma Creates() returns (path: seq<Step>)
    ensures Init(Fresh()) && Leads(Fresh(), path, Alone1(1, 0, Idle))
  {
    hide Leads;
    var s := Fresh();
    var ins := Ins(0, KEY, 5, 1, true, false, false, false, 10, false);
    var call := Start(0, CallStandalone(KEY, 5, false, 10, false));
    var s1 := Apply(s, call);
    assert s1.threads == [Insert(LooseLoad(ins)), Idle];
    var s2 := Apply(s1, Go(0));
    assert s2.threads == [Insert(LooseAdd(ins, 0)), Idle];
    var s3 := Apply(s2, Go(0));
    assert s3.threads == [Insert(ClockMachine.Alone(ins)), Idle];
    var s4 := Apply(s3, Go(0));
    assert s4 == Alone1(1, 0, Idle);
    OneStep(s, call);
    Follow(s, [call], s1, Go(0));
    Follow(s, [call] + [Go(0)], s2, Go(0));
    Follow(s, [call] + [Go(0)] + [Go(0)], s3, Go(0));
    path := [call] + [Go(0)] + [Go(0)] + [Go(0)];
  }

  lemma RefAdds(a: nat, r: nat)
    requires r < a
    ensures Enabled(Alone1(a, r, Idle), Start(0, CallRef(1, 0)))
    ensures Apply(Alone1(a, r, Idle), Start(0, CallRef(1, 0))) == Alone1(a + 1, r, Idle)
  {
    var s := Alone1(a, r, Idle);
    assert s.users + multiset{(1, 0)} == Alone1(a + 1, r, Idle).users;
  }

  lemma ReleaseTakes(a: nat, r: nat)
    requires r + 1 < a
    ensures var go := Start(0, CallRelease(1, 0, true, false));
      && Enabled(Alone1(a, r, Idle), go)
      && Apply(Alone1(a, r, Idle), go) == Alone1(a, r + 1, Take(Released(1, Meta(Invisible, a, r + 1))))
      && Enabled(Alone1(a, r + 1, Take(Released(1, Meta(Invisible, a, r + 1)))), Go(0))
      && Apply(Alone1(a, r + 1, Take(Released(1, Meta(Invisible, a, r + 1)))), Go(0))
         == Alone1(a, r + 1, Take(Correct(1, Meta(Invisible, a, r + 1))))
  {
    var s := Alone1(a, r, Idle);
    assert s.users - multiset{(1, 0)} == Alone1(a, r + 1, Idle).users;
  }

  /** n more references. */
  lemma {:induction false} Refs(a: nat, n: nat) returns (path: seq<Step>)
    requires a > 0
    ensures Leads(Alone1(a, 0, Idle), path, Alone1(a + n, 0, Idle))
  {
    hide Leads, Enabled, Apply;
    if n == 0 {
      Stay(Alone1(a, 0, Idle));
      path := [];
    } else {
      var p := Refs(a, n - 1);
      RefAdds(a + n - 1, 0);
      Follow(Alone1(a, 0, Idle), p, Alone1(a + n - 1, 0, Idle), Start(0, CallRef(1, 0)));
      path := p + [Start(0, CallRef(1, 0))];
    }
  }

  /** n of them are given back; the last of these Releases is about to run its correction. */
  lemma {:induction false} Releases(a: nat, n: nat) returns (path: seq<Step>)
    requires 0 < n < a
    ensures Leads(Alone1(a, 0, Idle), path, Alone1(a, n, Take(Correct(1, Meta(Invisible, a, n)))))
  {
    hide Leads, Enabled, Apply;
    var s, go := Alone1(a, 0, Idle), Start(0, CallRelease(1, 0, true, false));
    path := [];
    Stay(s);
    if n > 1 {
      var p := Releases(a, n - 1);
      CorrectEnds(a, n - 1);
      Follow(s, p, Alone1(a, n - 1, Take(Correct(1, Meta(Invisible, a, n - 1)))), Go(0));
      path := p + [Go(0)];
    }
    ReleaseTakes(a, n - 1);
    Follow(s, path, Alone1(a, n - 1, Idle), go);
    Follow(s, path + [go], Alone1(a, n, Take(Released(1, Meta(Invisible, a, n)))), Go(0));
    path := path + [go] + [Go(0)];
  }

  lemma CorrectEnds(a: nat, n: nat)
    requires n <= a
    ensures var s := Alone1(a, n, Take(Correct(1, Meta(Invisible, a, n))));
      Enabled(s, Go(0)) && Apply(s, Go(0)) == Alone1(a, n, Idle)
  {
  }

  /** An input: a standalone handle is referenced five times more, and four useful Releases follow.  The fourth one is
      about to run its correction, whose guard fires, with two references left; and they may go first. */
  lemma DeletedIsTouched() returns (path: seq<Step>, r: State)
    ensures Init(Fresh()) && Leads(Fresh(), path, r) && TouchesDeleted(r, 0)
  {
    hide Leads, Inv, Enabled, Apply;
    var p := Creates();
    var q := Refs(1, 5);
    LeadsThen(Fresh(), p, Alone1(1, 0, Idle), q, Alone1(6, 0, Idle));
    var x := Releases(6, 4);
    var s := Alone1(6, 4, Take(Correct(1, Meta(Invisible, 6, 4))));
    LeadsThen(Fresh(), p + q, Alone1(6, 0, Idle), x, s);
    InitInv(Fresh());
    LeadsInv(Fresh(), p + q + x, s);
    var y;
    y, r := OthersDelete(s, 0, 1, 1);
    LeadsThen(Fresh(), p + q + x, s, y, r);
    path := p + q + x + y;
  }
}
