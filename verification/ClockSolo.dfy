/**
 Operations of the clock table that nobody interferes with: how a thread goes on while no other thread does.  The other
 threads may be in the midst of operations of their own.
 */
module ClockSolo {
  import opened Basics
  import opened ClockProbe
  import opened ClockMachine
  import opened ClockOwnership
  import opened ClockDisplacement
  import opened Sums
  import ClockPaths

  /** n steps of thread t lead from s to r. */
  ghost predicate Goes(s: State, t: nat, n: nat, r: State)
    decreases n
  {
    if n == 0 then r == s else Enabled(s, Go(t)) && Goes(Apply(s, Go(t)), t, n - 1, r)
  }

  lemma OneGo(s: State, t: nat)
    requires Enabled(s, Go(t))
    ensures Goes(s, t, 1, Apply(s, Go(t)))
  {
    assert Goes(Apply(s, Go(t)), t, 0, Apply(s, Go(t)));
  }

  lemma NoGo(s: State, t: nat)
    ensures Goes(s, t, 0, s)
  {
  }

  lemma {:induction false} GoesThen(s: State, t: nat, a: nat, m: State, b: nat, r: State)
    requires Goes(s, t, a, m) && Goes(m, t, b, r)
    ensures Goes(s, t, a + b, r)
    decreases a
  {
    hide Enabled, Apply;
    if a > 0 { GoesThen(Apply(s, Go(t)), t, a - 1, m, b, r); }
  }

  /** Everything the invariants say. */
  ghost predicate Consistent(s: State, n: nat) {
    Shaped(s) && Inv(s) && Paths(s, n) && forall g: nat :: g < s.size ==> Counted(s, g, n)
  }

  lemma ConsistentStep(s: State, step: Step, n: nat)
    requires Consistent(s, n) && Enabled(s, step)
    ensures Consistent(Apply(s, step), n) && Apply(s, step).size == s.size
  {
    hide Inv, Paths, Counted, Enabled, Apply;
    ClockPaths.StepInv(s, step);
    InvShaped(Apply(s, step));
    assert Counted(s, 0, n);
    StepCounts(s, step, 0, n);
    forall g: nat | g < Apply(s, step).size ensures Counted(Apply(s, step), g, n) { StepCounts(s, step, g, n); }
  }

  lemma InvShaped(s: State)
    requires Inv(s)
    ensures Shaped(s)
  {
  }

  lemma ConsistentShaped(s: State, n: nat)
    requires Consistent(s, n)
    ensures Shaped(s) && s.size == Pow2(n)
  {
  }

  lemma {:induction false} ConsistentGoes(s: State, t: nat, a: nat, r: State, n: nat)
    requires Consistent(s, n) && Goes(s, t, a, r)
    ensures Consistent(r, n) && r.size == s.size
    decreases a
  {
    hide Consistent, Enabled, Apply;
    if a > 0 {
      ConsistentStep(s, Go(t), n);
      ConsistentGoes(Apply(s, Go(t)), t, a - 1, r, n);
    }
  }

  lemma {:induction false} RunConsistent(trace: seq<State>, steps: seq<Step>, i: nat, n: nat)
    requires Run(trace, steps) && i < |trace| && trace[0].size == Pow2(n)
    ensures Consistent(trace[i], n) && trace[i].size == Pow2(n)
  {
    hide Enabled, Apply, Inv, Paths, Counted;
    if i == 0 {
      InitInv(trace[0]);
      InvShaped(trace[0]);
      forall g: nat | g < trace[0].size ensures Counted(trace[0], g, n) && Paths(trace[0], n) {
        InitCounts(trace[0], g, n);
      }
      InitCounts(trace[0], 0, n);
    } else {
      RunConsistent(trace, steps, i - 1, n);
      ConsistentStep(trace[i - 1], steps[i - 1], n);
    }
  }

  lemma SetTwice(s: State, t: nat, a: Pc, b: Pc)
    requires t < |s.threads|
    ensures SetPc(SetPc(s, t, a), t, b) == SetPc(s, t, b)
  {
    assert s.threads[t := a][t := b] == s.threads[t := b];
  }

  // ---------------------------------------------------------------- a displacement count of zero hides nothing

  /** The insertion has rolled back further than it came. */
  predicate Overdrawn(pc: Pc, size: nat) {
    pc.Insert? && pc.n.Lost? && pc.n.n > size
  }

  ghost predicate NoneOverdrawn(s: State) {
    forall t: nat :: t < |s.threads| ==> !Overdrawn(s.threads[t], s.size)
  }

  /** The thread is removing e, which still counts as stored. */
  predicate Removes(pc: Pc, e: nat) {
    pc.Remove? && (pc.r.Roll? || pc.r.Dispose?) && pc.r.e == e
  }

  ghost predicate RemovedBy(ths: seq<Pc>, n: nat, e: nat) {
    exists t: nat :: t < n && t < |ths| && Removes(ths[t], e)
  }

  /** What the entries that none of the first m threads removes add to g's count. */
  ghost function Rest(s: State, m: nat, g: nat, n: nat): (xs: seq<int>)
    ensures |xs| == |s.entries|
  {
    seq(|s.entries|, e requires 0 <= e < |s.entries| =>
      if RemovedBy(s.threads, m, e) then 0 else Stored(s.entries[e], g, n))
  }

  lemma {:induction false} SeenGrows(k: Key, i: nat, j: nat, g: nat, size: nat)
    requires size > 0 && i <= j
    ensures 0 <= ClockDisplacement.Seen(k, i, g, size) <= ClockDisplacement.Seen(k, j, g, size)
  {
    if i < j { SeenGrows(k, i, j - 1, g, size); }
  }

  /** A share is negative only for a removal, and then not below what the entry adds. */
  ghost predicate Bounded(es: seq<Entry>, pc: Pc, g: nat, n: nat) {
    || Due(es, pc, g, n) >= 0
    || (pc.Remove? && (pc.r.Roll? || pc.r.Dispose?) && pc.r.e < |es|
      && Due(es, pc, g, n) >= 0 - Stored(es[pc.r.e], g, n))
  }

  lemma DueBounds(s: State, t: nat, g: nat, n: nat)
    requires Inv(s) && Paths(s, n) && t < |s.threads| && !Overdrawn(s.threads[t], s.size)
    ensures Bounded(s.entries, s.threads[t], g, n)
  {
    hide Turn, Inv, Stored, InsertDue, RemoveDue, InsertPath, RemovePath;
    InvThread(s, t);
    PathAt(s, t, n);
    match s.threads[t] {
      case Insert(p) => InsertDueBound(p, g, n);
      case Remove(r) => RemoveDueBound(s, r, g, n);
      case _ =>
    }
  }

  lemma InsertDueBound(p: InsertPc, g: nat, n: nat)
    requires InsertPath(p, n) && (p.Lost? ==> p.n <= Pow2(n))
    ensures InsertDue(p, g, n) >= 0
  {
    hide Turn, ClockDisplacement.Seen;
    var k, size := p.ins.key, Pow2(n);
    if p.Lost? { SeenGrows(k, p.n, size, g, size); }
    if p.Back? { SeenGrows(k, Turn(k, p.cur, n), Turn(k, p.h, n), g, size); }
  }

  lemma RemoveDueBound(s: State, r: RemovePc, g: nat, n: nat)
    requires RemovePath(s.entries, r, n) && RemoveOk(s, r) && s.size == Pow2(n)
    ensures var d := RemoveDue(s.entries, r, g, n);
      d >= 0 || ((r.Roll? || r.Dispose?) && r.e < |s.entries| && d >= 0 - Stored(s.entries[r.e], g, n))
  {
    hide Turn, ClockDisplacement.Seen;
    var size := Pow2(n);
    match r {
      case Roll(h, e, cur, cont) =>
        SeenGrows(KeyAt(s.entries, e), Turn(KeyAt(s.entries, e), cur, n), Turn(KeyAt(s.entries, e), h, n), g, size);
      case RollAfter(h, key, cur, _) => SeenGrows(key, Turn(key, cur, n), Turn(key, h, n), g, size);
      case _ =>
    }
  }

  /** Two threads never remove the same entry, and nobody removes one that is shared. */
  lemma RemovalIsOwned(s: State, t: nat, e: nat)
    requires Inv(s) && t < |s.threads| && Removes(s.threads[t], e)
    ensures var h := s.threads[t].r.h; e < |s.entries| && s.entries[e].loc == InHandle(h) && h < |s.handles|
    ensures s.handles[s.threads[t].r.h].meta.st.Construction?
    ensures forall u: nat :: u < |s.threads| && u != t ==> !Removes(s.threads[u], e)
  {
    hide Inv;
    var h := s.threads[t].r.h;
    InvReady(s, t, h, |s.entries|);
    forall u: nat | u < |s.threads| && u != t ensures !Removes(s.threads[u], e) {
      if Removes(s.threads[u], e) {
        InvThread(s, u);
        ClaimsOfTwo(s, t, u, h);
      }
    }
  }

  lemma {:induction false} DuesCovered(s: State, m: nat, g: nat, n: nat)
    requires Inv(s) && Paths(s, n) && NoneOverdrawn(s) && m <= |s.threads|
    ensures Sum(Dues(s.entries, s.threads, g, n)[..m]) + Sum(Storeds(s.entries, g, n)) >= Sum(Rest(s, m, g, n))
  {
    hide Inv, Paths, Due, Stored, Removes;
    var ds, ss := Dues(s.entries, s.threads, g, n), Storeds(s.entries, g, n);
    if m == 0 {
      assert Rest(s, 0, g, n) == ss;
    } else {
      DuesCovered(s, m - 1, g, n);
      assert ds[..m] == ds[..m - 1] + [ds[m - 1]];
      SumAppend(ds[..m - 1], ds[m - 1]);
      CoveredStep(s, m - 1, g, n);
    }
  }

  lemma CoveredStep(s: State, t: nat, g: nat, n: nat)
    requires Inv(s) && Paths(s, n) && NoneOverdrawn(s) && t < |s.threads|
    ensures Due(s.entries, s.threads[t], g, n) + Sum(Rest(s, t, g, n)) >= Sum(Rest(s, t + 1, g, n))
  {
    hide Inv, Paths, Due, Stored;
    DueBounds(s, t, g, n);
    var pc := s.threads[t];
    if pc.Remove? && (pc.r.Roll? || pc.r.Dispose?) && pc.r.e < |s.entries| {
      var e := pc.r.e;
      RemovalIsOwned(s, t, e);
      RestStep(s, t, e, g, n);
      StoredNatural(s.entries[e], g, n);
    } else {
      forall e: nat | e < |s.entries| ensures RemovedBy(s.threads, t + 1, e) == RemovedBy(s.threads, t, e) {}
      assert Rest(s, t + 1, g, n) == Rest(s, t, g, n);
    }
  }

  lemma StoredNatural(x: Entry, g: nat, n: nat)
    ensures Stored(x, g, n) >= 0
  {
  }

  lemma RestStep(s: State, t: nat, e: nat, g: nat, n: nat)
    requires t < |s.threads| && e < |s.entries| && Removes(s.threads[t], e)
    requires forall u: nat :: u < |s.threads| && u != t ==> !Removes(s.threads[u], e)
    ensures Sum(Rest(s, t + 1, g, n)) == Sum(Rest(s, t, g, n)) - Stored(s.entries[e], g, n)
  {
    hide Stored;
    var a, b := Rest(s, t, g, n), Rest(s, t + 1, g, n);
    assert RemovedBy(s.threads, t + 1, e) && !RemovedBy(s.threads, t, e);
    forall x: nat | x < |s.entries| && x != e ensures RemovedBy(s.threads, t + 1, x) == RemovedBy(s.threads, t, x) {}
    assert b == a[e := 0];
    SumUpdate(a, e, 0);
  }

  /** A shared entry is beyond no slot of its path that has a zero count. */
  lemma ZeroHidesNothing(s: State, n: nat, g: nat, h: nat)
    requires Consistent(s, n) && NoneOverdrawn(s) && g < s.size && h < s.size && s.handles[g].disp == 0
    requires Shareable(s.handles[h].meta)
    ensures s.handles[h].entry < |s.entries|
    ensures var k := s.entries[s.handles[h].entry].key; Turn(k, h, n) <= Turn(k, g, n)
  {
    hide Inv, Paths, Due, Turn;
    var e := s.handles[h].entry;
    SharedIsStored(s, h);
    assert Counted(s, g, n);
    var ds := Dues(s.entries, s.threads, g, n);
    DuesCovered(s, |s.threads|, g, n);
    assert ds[..|s.threads|] == ds;
    var rest := Rest(s, |s.threads|, g, n);
    forall x | 0 <= x < |rest| ensures rest[x] >= 0 { StoredNatural(s.entries[x], g, n); }
    SumMember(rest, e);
    if RemovedBy(s.threads, |s.threads|, e) {
      var t: nat :| t < |s.threads| && Removes(s.threads[t], e);
      RemovalIsOwned(s, t, e);
      assert false;
    }
    var k := s.entries[e].key;
    PathsSize(s, n);
    if Turn(k, h, n) > Turn(k, g, n) { PassedIsSeen(k, g, h, n); }
  }

  lemma PathsSize(s: State, n: nat)
    requires Paths(s, n)
    ensures s.size == Pow2(n)
  {
  }

  lemma SharedIsStored(s: State, h: nat)
    requires Inv(s) && h < |s.handles| && Shareable(s.handles[h].meta)
    ensures s.handles[h].entry < |s.entries| && s.entries[s.handles[h].entry].loc == InHandle(h)
  {
    assert HandleOk(s, h);
  }

  lemma PassedIsSeen(k: Key, g: nat, h: nat, n: nat)
    requires g < Pow2(n) && h < Pow2(n) && Turn(k, g, n) < Turn(k, h, n)
    ensures Passes(k, h, g, n) >= 1
  {
    hide Turn, ClockDisplacement.Seen;
    var i := Turn(k, g, n);
    SeenGrows(k, i + 1, Turn(k, h, n), g, Pow2(n));
    SeenAt(k, i, g, n);
  }

  lemma SeenAt(k: Key, i: nat, g: nat, n: nat)
    requires g < Pow2(n) && i == Turn(k, g, n)
    ensures ClockDisplacement.Seen(k, i + 1, g, Pow2(n)) >= 1
  {
  }

  // ---------------------------------------------------------------- runs that go on

  /** A run up to i, and one step more. */
  lemma Extend(trace: seq<State>, steps: seq<Step>, i: nat, step: Step) returns (tr: seq<State>, st: seq<Step>)
    requires Run(trace, steps) && i < |trace| && Enabled(trace[i], step)
    ensures Run(tr, st) && |tr| == i + 2 && tr[i + 1] == Apply(trace[i], step) && tr[0] == trace[0]
  {
    hide Enabled, Apply;
    tr, st := trace[..i + 1] + [Apply(trace[i], step)], steps[..i] + [step];
  }

  /** And many steps of one thread. */
  lemma {:induction false} ExtendGoes(trace: seq<State>, steps: seq<Step>, i: nat, t: nat, n: nat, r: State)
    returns (tr: seq<State>, st: seq<Step>, j: nat)
    requires Run(trace, steps) && i < |trace| && Goes(trace[i], t, n, r)
    ensures Run(tr, st) && j < |tr| && tr[j] == r && tr[0] == trace[0]
    decreases n
  {
    hide Enabled, Apply, Run;
    if n == 0 {
      tr, st, j := trace, steps, i;
    } else {
      var a, b := Extend(trace, steps, i, Go(t));
      tr, st, j := ExtendGoes(a, b, i + 1, t, n - 1, r);
    }
  }
}
