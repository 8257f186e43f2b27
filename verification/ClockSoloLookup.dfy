/**
 Lookup in the concurrent clock table: what it returns on every run, and what it returns if nobody interferes.
 */
module ClockSoloLookup {
  import opened Basics
  import opened ClockProbe
  import opened ClockMachine
  import opened ClockOwnership
  import opened ClockSolo
  import ClockPaths

  /** A visible entry for the key is in h. */
  predicate Hit(s: State, h: nat, key: Key) {
    h < |s.handles| && s.handles[h].meta.st.Visible? && KeyIn(s, h, key)
  }

  predicate JunkAt(a: Handle, b: Handle) {
    b == a || (!Shareable(a.meta) && b == a.(meta := a.meta.(acq := b.meta.acq)))
  }

  /** Only acquire counters of handles that hold nothing to share differ. */
  predicate Junk(s: State, r: State) {
    && |r.handles| == |s.handles| && r == s.(handles := r.handles)
    && forall h: nat :: h < |s.handles| ==> JunkAt(s.handles[h], r.handles[h])
  }

  lemma JunkHits(s: State, r: State, key: Key)
    requires Junk(s, r)
    ensures forall h: nat :: Hit(r, h, key) <==> Hit(s, h, key)
  {
    forall h: nat ensures Hit(r, h, key) <==> Hit(s, h, key) {
      if h < |s.handles| { assert JunkAt(s.handles[h], r.handles[h]); }
    }
  }

  lemma JunkThen(a: State, b: State, c: State)
    requires Junk(a, b) && Junk(b, c)
    ensures Junk(a, c)
  {
    forall h: nat | h < |a.handles| ensures JunkAt(a.handles[h], c.handles[h]) {
      assert JunkAt(a.handles[h], b.handles[h]) && JunkAt(b.handles[h], c.handles[h]);
    }
  }

  // ---------------------------------------------------------------- one probe

  /** The caller has a reference to what h holds. */
  function Found(s: State, h: nat): State
    requires h < |s.handles|
  {
    AddRef(s, h, 1).(users := s.users + multiset{(h, s.handles[h].entry)})
  }

  lemma LookupHits(s: State, t: nat, key: Key, p: nat, h: nat)
    requires Shaped(s) && t < |s.threads| && h < s.size && Hit(s, h, key)
    ensures Goes(SetPc(s, t, Lookup(Acquire(key, p, h))), t, 2, SetPc(Found(s, h), t, Idle))
  {
    hide Goes;
    var s0, s1 := SetPc(s, t, Lookup(Acquire(key, p, h))), SetPc(AddRef(s, h, 1), t, Lookup(Compare(key, p, h)));
    SetTwice(AddRef(s, h, 1), t, Lookup(Acquire(key, p, h)), Lookup(Compare(key, p, h)));
    assert Apply(s0, Go(t)) == s1;
    SetTwice(AddRef(s, h, 1), t, Lookup(Compare(key, p, h)), Idle);
    assert Apply(s1, Go(t)) == SetPc(Found(s, h), t, Idle);
    OneGo(s0, t);
    OneGo(s1, t);
    GoesThen(s0, t, 1, s1, 1, SetPc(Found(s, h), t, Idle));
  }

  lemma AddRefBack(s: State, h: nat, n: int)
    requires h < |s.handles|
    ensures AddRef(AddRef(s, h, n), h, 0 - n) == s
  {
    assert AddRef(AddRef(s, h, n), h, 0 - n).handles == s.handles;
  }

  lemma LookupMisses(s: State, t: nat, key: Key, p: nat, h: nat) returns (n: nat, m: State)
    requires Shaped(s) && t < |s.threads| && h < s.size && !Hit(s, h, key)
    ensures Junk(s, m) && Goes(SetPc(s, t, Lookup(Acquire(key, p, h))), t, n, SetPc(m, t, Lookup(Next(key, p, h))))
  {
    hide Goes;
    var s0, f := SetPc(s, t, Lookup(Acquire(key, p, h))), AfterAcquire(s.handles[h].meta, key, p, h);
    var s1 := SetPc(AddRef(s, h, 1), t, Lookup(f));
    SetTwice(AddRef(s, h, 1), t, Lookup(Acquire(key, p, h)), Lookup(f));
    assert Apply(s0, Go(t)) == s1;
    OneGo(s0, t);
    if f.Next? {
      n, m := 1, AddRef(s, h, 1);
    } else {
      m := s;
      SetTwice(AddRef(s, h, 1), t, Lookup(f), Lookup(Next(key, p, h)));
      AddRefBack(s, h, 1);
      assert Apply(s1, Go(t)) == SetPc(s, t, Lookup(Next(key, p, h)));
      OneGo(s1, t);
      GoesThen(s0, t, 1, s1, 1, SetPc(s, t, Lookup(Next(key, p, h))));
      n := 2;
    }
  }

  // ---------------------------------------------------------------- all probes

  /** The search comes to the q-th probe from the p-th one: nothing is found, and no count is zero, on the way. */
  ghost predicate Comes(s: State, key: Key, p: nat, q: nat)
    requires s.size > 0
  {
    forall x: nat {:trigger Probe(key, x, s.size)} :: p <= x < q ==>
      var h := Probe(key, x, s.size); !Hit(s, h, key) && h < |s.handles| && s.handles[h].disp != 0
  }

  /** And ends there without result. */
  ghost predicate GivesUp(s: State, key: Key, q: nat)
    requires s.size > 0
  {
    var h := Probe(key, q, s.size);
    q < s.size && !Hit(s, h, key) && h < |s.handles| && (s.handles[h].disp == 0 || q + 1 == s.size)
  }

  lemma NextProbe(s: State, t: nat, key: Key, p: nat)
    requires Shaped(s) && t < |s.threads| && p < s.size
    ensures var h := Probe(key, p, s.size);
      var s0 := SetPc(s, t, Lookup(Next(key, p, h)));
      && Enabled(s0, Go(t))
      && Apply(s0, Go(t)) == SetPc(s, t, if s.handles[h].disp == 0 || p + 1 == s.size then Idle
                                        else Lookup(Acquire(key, p + 1, Probe(key, p + 1, s.size))))
  {
    hide Probe, Advance;
    var h := Probe(key, p, s.size);
    AdvanceIsNextProbe(key, p, s.size);
    SetTwice(s, t, Lookup(Next(key, p, h)), Idle);
    SetTwice(s, t, Lookup(Next(key, p, h)), Lookup(Acquire(key, p + 1, Probe(key, p + 1, s.size))));
  }

  /** A probe that finds nothing, and on to the next one or to the end. */
  lemma LookupGoesOn(s: State, t: nat, key: Key, p: nat) returns (n: nat, m: State)
    requires Shaped(s) && t < |s.threads| && p < s.size && !Hit(s, Probe(key, p, s.size), key)
    ensures Junk(s, m)
    ensures var h := Probe(key, p, s.size);
      Goes(SetPc(s, t, Lookup(Acquire(key, p, h))), t, n,
           SetPc(m, t, if s.handles[h].disp == 0 || p + 1 == s.size then Idle
                       else Lookup(Acquire(key, p + 1, Probe(key, p + 1, s.size)))))
  {
    hide Goes, Probe, Apply, Enabled, KeyIn;
    var h := Probe(key, p, s.size);
    var a;
    a, m := LookupMisses(s, t, key, p, h);
    assert JunkAt(s.handles[h], m.handles[h]);
    var s1 := SetPc(m, t, Lookup(Next(key, p, h)));
    NextProbe(m, t, key, p);
    OneGo(s1, t);
    GoesThen(SetPc(s, t, Lookup(Acquire(key, p, h))), t, a, s1, 1, Apply(s1, Go(t)));
    n := a + 1;
  }

  /** From the p-th probe on. */
  lemma {:induction false} LookupFrom(s: State, t: nat, key: Key, p: nat) returns (n: nat, q: nat, hit: bool, r: State)
    requires Shaped(s) && t < |s.threads| && p < s.size
    ensures r.threads == s.threads
    ensures Goes(SetPc(s, t, Lookup(Acquire(key, p, Probe(key, p, s.size)))), t, n, SetPc(r, t, Idle))
    ensures p <= q < s.size && Comes(s, key, p, q)
    ensures hit ==> Hit(s, Probe(key, q, s.size), key)
    ensures hit ==> exists m: State ::
      Junk(s, m) && Hit(m, Probe(key, q, s.size), key) && r == Found(m, Probe(key, q, s.size))
    ensures !hit ==> GivesUp(s, key, q) && Junk(s, r)
    decreases s.size - p
  {
    hide Goes, Probe, Apply, Enabled, KeyIn;
    var h := Probe(key, p, s.size);
    var s0 := SetPc(s, t, Lookup(Acquire(key, p, h)));
    if Hit(s, h, key) {
      LookupHits(s, t, key, p, h);
      n, q, hit, r := 2, p, true, Found(s, h);
      assert Junk(s, s);
    } else {
      var a, m := LookupGoesOn(s, t, key, p);
      if s.handles[h].disp == 0 || p + 1 == s.size {
        n, q, hit, r := a, p, false, m;
      } else {
        var b;
        b, q, hit, r := LookupFrom(m, t, key, p + 1);
        var s1 := SetPc(m, t, Lookup(Acquire(key, p + 1, Probe(key, p + 1, s.size))));
        GoesThen(s0, t, a, s1, b, SetPc(r, t, Idle));
        n := a + b;
        JunkHits(s, m, key);
        ComesBack(s, m, key, p, q);
        GivesUpSame(s, m, key, q);
        if hit {
          var x: State :| Junk(m, x) && Hit(x, Probe(key, q, m.size), key) && r == Found(x, Probe(key, q, m.size));
          JunkThen(s, m, x);
        } else {
          JunkThen(s, m, r);
        }
      }
    }
  }

  lemma ComesBack(s: State, m: State, key: Key, p: nat, q: nat)
    requires Junk(s, m) && s.size > 0 && Comes(m, key, p + 1, q) && p < s.size
    requires var h := Probe(key, p, s.size); !Hit(s, h, key) && h < |s.handles| && s.handles[h].disp != 0
    ensures Comes(s, key, p, q)
  {
    hide Probe;
    JunkHits(s, m, key);
    forall x: nat {:trigger Probe(key, x, s.size)} | p <= x < q
      ensures var h := Probe(key, x, s.size); !Hit(s, h, key) && h < |s.handles| && s.handles[h].disp != 0
    {
      if x > p { assert JunkAt(s.handles[Probe(key, x, s.size)], m.handles[Probe(key, x, s.size)]); }
    }
  }

  lemma GivesUpSame(s: State, m: State, key: Key, q: nat)
    requires Junk(s, m) && s.size > 0
    ensures GivesUp(m, key, q) <==> GivesUp(s, key, q)
  {
    hide Probe;
    JunkHits(s, m, key);
    var h := Probe(key, q, s.size);
    if h < |s.handles| { assert JunkAt(s.handles[h], m.handles[h]); }
  }

  // ---------------------------------------------------------------- what Lookup returns

  /** Alone, Lookup returns the first visible entry for the key on its path, unless a zero count comes first. */
  lemma LookupAlone(s: State, t: nat, key: Key) returns (n: nat, q: nat, hit: bool, r: State)
    requires Enabled(s, Start(t, CallLookup(key)))
    ensures Goes(Apply(s, Start(t, CallLookup(key))), t, n, r) && t < |r.threads| && r.threads == s.threads
    ensures q < s.size && Comes(s, key, 0, q) && if hit then Hit(s, Probe(key, q, s.size), key) else GivesUp(s, key, q)
    ensures hit ==> r.users == s.users + multiset{(Probe(key, q, s.size), s.handles[Probe(key, q, s.size)].entry)}
    ensures !hit ==> Junk(s, r)
    ensures r == s.(handles := r.handles, users := r.users) && |r.handles| == |s.handles|
    ensures forall h: nat :: h < |s.handles| && (hit ==> h != Probe(key, q, s.size)) ==>
      JunkAt(s.handles[h], r.handles[h])
    ensures hit ==> var h := Probe(key, q, s.size);
      r.handles[h] == s.handles[h].(meta := Acquired(s.handles[h].meta, 1))
  {
    hide Goes, Probe, KeyIn;
    AtZeroth(key, s.size);
    var a;
    a, q, hit, r := LookupFrom(s, t, key, 0);
    n := a;
    assert s.threads[t := Idle] == s.threads;
    assert SetPc(r, t, Idle) == r;
    if hit {
      var h := Probe(key, q, s.size);
      var m: State :| Junk(s, m) && Hit(m, h, key) && r == Found(m, h);
      assert JunkAt(s.handles[h], m.handles[h]);
      forall g: nat | g < |s.handles| && g != h ensures JunkAt(s.handles[g], r.handles[g]) {
        assert JunkAt(s.handles[g], m.handles[g]);
      }
    }
  }

  /** Every visible entry for the key is beyond a slot of its path with a zero count. */
  ghost predicate Hidden(s: State, key: Key)
    requires s.size > 0
  {
    forall q: nat {:trigger Probe(key, q, s.size)} :: q < s.size && Hit(s, Probe(key, q, s.size), key) ==>
      !NoZero(s, key, q)
  }

  ghost predicate NoZero(s: State, key: Key, q: nat)
    requires s.size > 0
  {
    forall x: nat {:trigger Probe(key, x, s.size)} :: x < q ==>
      Probe(key, x, s.size) < |s.handles| && s.handles[Probe(key, x, s.size)].disp != 0
  }

  lemma ProbesAll(s: State, key: Key, n: nat)
    requires s.size == Pow2(n)
    ensures Present(s, key) <==> exists q: nat {:trigger Probe(key, q, s.size)} ::
      q < s.size && Hit(s, Probe(key, q, s.size), key)
  {
    hide Probe, Turn;
    if Present(s, key) {
      var h: nat :| h < s.size && Hit(s, h, key);
      ProbeOfTurn(key, h, n);
      assert Hit(s, Probe(key, Turn(key, h, n), s.size), key);
    }
  }

  /** Whatever the state of the table, a Lookup that nobody interferes with answers rightly whether there is a visible
      entry for the key, if and only if there is none or not all of them are hidden by zero counts. */
  lemma LookupRightIff(s: State, t: nat, key: Key, k: nat) returns (n: nat, q: nat, hit: bool, r: State)
    requires Enabled(s, Start(t, CallLookup(key))) && s.size == Pow2(k)
    ensures Goes(Apply(s, Start(t, CallLookup(key))), t, n, r) && r.threads == s.threads
    ensures hit <==> r.users != s.users
    ensures (hit <==> Present(s, key)) <==> !Present(s, key) || !Hidden(s, key)
  {
    hide Goes, Probe, Apply, Comes, KeyIn;
    n, q, hit, r := LookupAlone(s, t, key);
    ProbesAll(s, key, k);
    var h := Probe(key, q, s.size);
    if hit {
      assert Hit(s, h, key);
      ComesNoZero(s, key, q);
      OneMoreUser(s.users, (h, s.handles[h].entry));
    } else {
      forall x: nat {:trigger Probe(key, x, s.size)} | x < s.size && Hit(s, Probe(key, x, s.size), key)
        ensures !NoZero(s, key, x)
      {
        BeyondIsHidden(s, key, q, x);
      }
    }
  }

  lemma OneMoreUser(users: multiset<(nat, nat)>, u: (nat, nat))
    ensures users + multiset{u} != users
  {
    assert (users + multiset{u})[u] == users[u] + 1;
  }

  lemma ComesNoZero(s: State, key: Key, q: nat)
    requires s.size > 0 && Comes(s, key, 0, q)
    ensures NoZero(s, key, q)
  {
  }

  lemma BeyondIsHidden(s: State, key: Key, q: nat, x: nat)
    requires s.size > 0 && Comes(s, key, 0, q) && GivesUp(s, key, q) && x < s.size && Hit(s, Probe(key, x, s.size), key)
    ensures !NoZero(s, key, x)
  {
    hide Probe;
    if x >= q { assert Probe(key, q, s.size) < |s.handles|; }
  }

  lemma AtZeroth(key: Key, size: nat)
    requires size > 0
    ensures Probe(key, 0, size) == First(key, size)
  {
    AdvanceIsNextProbe(key, 0, size);
  }

  /** A visible entry for the key is somewhere in the table. */
  ghost predicate Present(s: State, key: Key) {
    exists h: nat :: h < s.size && Hit(s, h, key)
  }

  /** In every state of every run in which no lost insertion has rolled back further than it came, a Lookup that nobody
      interferes with returns an entry if and only if there is a visible one for the key, and then one of these. */
  lemma LookupFindsIff(trace: seq<State>, steps: seq<Step>, i: nat, t: nat, key: Key, k: nat)
    returns (n: nat, r: State, found: Option<(nat, nat)>)
    requires Run(trace, steps) && i < |trace| && trace[0].size == Pow2(k) && NoneOverdrawn(trace[i])
    requires t < |trace[i].threads| && trace[i].threads[t].Idle?
    ensures Enabled(trace[i], Start(t, CallLookup(key)))
    ensures Goes(Apply(trace[i], Start(t, CallLookup(key))), t, n, r) && r.threads == trace[i].threads
    ensures found.Some? <==> Present(trace[i], key)
    ensures r.users == if found.Some? then trace[i].users + multiset{found.value} else trace[i].users
    ensures found.Some? ==>
      var h := found.value.0;
      h < trace[i].size && Hit(trace[i], h, key) && trace[i].handles[h].entry == found.value.1
  {
    hide Goes, Probe, Apply, Consistent, Comes;
    var s := trace[i];
    RunConsistent(trace, steps, i, k);
    ConsistentShaped(s, k);
    var q, hit;
    n, q, hit, r := LookupAlone(s, t, key);
    var g := Probe(key, q, s.size);
    if hit {
      found := Some((g, s.handles[g].entry));
    } else {
      found := None;
      forall h: nat | h < s.size ensures !Hit(s, h, key) { NothingElse(s, key, q, h, k); }
    }
  }

  /** When the search gives up, nothing is anywhere. */
  lemma NothingElse(s: State, key: Key, q: nat, h: nat, n: nat)
    requires Consistent(s, n) && NoneOverdrawn(s) && s.size > 0 && GivesUp(s, key, q) && Comes(s, key, 0, q)
      && h < s.size
    ensures !Hit(s, h, key)
  {
    hide Probe, Inv, Turn;
    ConsistentShaped(s, n);
    var g := Probe(key, q, s.size);
    if Hit(s, h, key) {
      TurnOfProbe(key, q, n);
      if s.handles[g].disp == 0 { ZeroHidesNothing(s, n, g, h); }
      var x := Turn(key, h, n);
      ProbeOfTurn(key, h, n);
      assert false;
    }
  }

  lemma ProbeOfTurn(key: Key, h: nat, n: nat)
    requires h < Pow2(n)
    ensures Turn(key, h, n) < Pow2(n) && Probe(key, Turn(key, h, n), Pow2(n)) == h
  {
  }

  // ---------------------------------------------------------------- on every run

  /** Thread t has been looking for the key since step i. */
  ghost predicate Looking(trace: seq<State>, i: nat, j: nat, t: nat) {
    i < j < |trace| && forall x: nat :: i < x <= j ==> t < |trace[x].threads| && !trace[x].threads[t].Idle?
  }

  lemma LookupStays(s: State, step: Step, t: nat, key: Key)
    requires Enabled(s, step) && t < |s.threads| && s.threads[t].Lookup? && s.threads[t].f.key == key
    ensures t < |Apply(s, step).threads|
    ensures var pc := Apply(s, step).threads[t]; pc.Idle? || (pc.Lookup? && pc.f.key == key)
  {
    hide DoGo, DoStart;
    ClockPaths.StepMoves(s, step);
    if step.t == t { LookupGo(s, t); }
  }

  lemma LookupGo(s: State, t: nat)
    requires Shaped(s) && t < |s.threads| && s.threads[t].Lookup? && InBounds(s, s.threads[t])
    ensures t < |DoGo(s, t).threads|
    ensures var pc := DoGo(s, t).threads[t]; pc.Idle? || (pc.Lookup? && pc.f.key == s.threads[t].f.key)
  {
  }

  lemma {:induction false} StillLooking(trace: seq<State>, steps: seq<Step>, i: nat, j: nat, t: nat, key: Key)
    requires Run(trace, steps) && Looking(trace, i, j, t) && steps[i] == Start(t, CallLookup(key))
    ensures t < |trace[j].threads| && trace[j].threads[t].Lookup? && trace[j].threads[t].f.key == key
    decreases j
  {
    hide Enabled, Apply;
    if j == i + 1 {
      StartsLooking(trace[i], t, key);
    } else {
      StillLooking(trace, steps, i, j - 1, t, key);
      LookupStays(trace[j - 1], steps[j - 1], t, key);
    }
  }

  lemma StartsLooking(s: State, t: nat, key: Key)
    requires Enabled(s, Start(t, CallLookup(key)))
    ensures var r := Apply(s, Start(t, CallLookup(key)));
      t < |r.threads| && r.threads[t].Lookup? && r.threads[t].f.key == key && r.users == s.users
  {
  }

  /** Whatever the other threads do, what a Lookup(key) ends with is a reference to a stored entry for the key, or
      nothing; and until then callers' references are not its business. */
  lemma LookupReturnsKey(trace: seq<State>, steps: seq<Step>, i: nat, j: nat, t: nat, key: Key)
    requires Run(trace, steps) && Looking(trace, i, j, t) && steps[i] == Start(t, CallLookup(key))
    requires j < |steps| && steps[j] == Go(t)
    ensures t < |trace[j + 1].threads|
    ensures !trace[j + 1].threads[t].Idle? ==> trace[j + 1].users == trace[j].users
    ensures trace[j + 1].threads[t].Idle? && trace[j + 1].users != trace[j].users ==>
      exists h: nat, e: nat ::
        && trace[j + 1].users == trace[j].users + multiset{(h, e)}
        && h < trace[j].size && trace[j].handles[h].entry == e
        && e < |trace[j].entries| && trace[j].entries[e].key == key && trace[j].entries[e].loc == InHandle(h)
  {
    hide Inv;
    StillLooking(trace, steps, i, j, t, key);
    RunInv(trace, steps, j);
    var s := trace[j];
    InvThread(s, t);
    if s.threads[t].f.Compare? {
      var h := s.threads[t].f.h;
      HolderShares(s, t, h);
      SharedIsStored(s, h);
      if KeyIn(s, h, key) { assert trace[j + 1].users == s.users + multiset{(h, s.handles[h].entry)}; }
    }
  }
}
