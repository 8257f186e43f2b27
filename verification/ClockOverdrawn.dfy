/**
 A run of the clock table on which a Lookup does not find what is there.

 An insertion that found no slot rolls back for ever.  Once it has rolled back further than it came, the displacement
 count of its first slot is too low by one; an entry displaced from that slot makes it zero, and a Lookup stops there.
 */
module ClockOverdrawn {
  import opened Basics
  import opened ClockProbe
  import opened ClockMachine
  import opened ClockSolo
  import opened ClockSoloEvict
  import opened HyperClockTable
  import opened Sums
  import ClockTable
  import ClockDisplacement
  import ClockOwnership
  import ClockLost
  import ClockRoom
  import ClockPaths
  import ClockSoloErase
  import Find = ClockSoloLookup
  import Ins = ClockSoloInsert

  /** The lost insertion goes on; slots keep what they hold. */
  lemma {:induction false} RollsOn(s: State, ins: ClockMachine.Ins, cur: nat, n: nat, m: nat) returns (r: State)
    requires Shaped(s) && |s.threads| > 0 && s.threads[0] == Insert(Lost(ins, cur, n)) && cur < s.size
      && ins.e < |s.entries|
    ensures Goes(s, 0, m, r) && r == s.(handles := r.handles, threads := r.threads) && |r.handles| == |s.handles|
    ensures |r.threads| == |s.threads| && r.threads[1..] == s.threads[1..]
    ensures r.threads[0].Insert? && r.threads[0].n.Lost? && r.threads[0].n.ins == ins && r.threads[0].n.n == n + m
    ensures forall h: nat :: h < |s.handles| ==> r.handles[h] == s.handles[h].(disp := r.handles[h].disp)
    decreases m
  {
    hide Goes, Advance;
    if m == 0 {
      NoGo(s, 0);
      r := s;
    } else {
      OneGo(s, 0);
      var x := Apply(s, Go(0));
      r := RollsOn(x, ins, Advance(ins.key, cur, s.size), n + 1, m - 1);
      GoesThen(s, 0, 1, x, m - 1, r);
    }
  }

  /** The table a lost insertion leaves once it has rolled back once too often. */
  ghost predicate Ready(s: State, k: nat) {
    && Shaped(s) && s.size == Pow2(k) && |s.threads| >= 2 && s.threads[1].Idle? && s.usage == 1 && s.occupancy == 1
    && s.occLimit >= 3 && (forall h: nat :: h < s.size ==> s.handles[h].meta.st.Empty?)
    && s.threads[0].Insert? && s.threads[0].n.Lost? && s.threads[0].n.n == s.size + 1
    && s.threads[0].n.ins.key == ClockLost.SEEKER && (forall t: nat :: 2 <= t < |s.threads| ==> s.threads[t].Idle?)
    && (forall e: nat :: e < |s.entries| ==> !s.entries[e].loc.InHandle?)
  }

  /** A run gets there. */
  lemma GetsReady(c: ClockLost.Config, k: nat) returns (trace: seq<State>, steps: seq<Step>, j: nat)
    requires ClockLost.Wide(c) && c.size == Pow2(k) && c.limit >= 3
    ensures Run(trace, steps) && j < |trace| && Ready(trace[j], k)
    ensures trace[0].size == c.size && trace[0].occLimit == c.limit && |trace[0].threads| == c.threads
  {
    hide Goes, Run, ClockPaths.Leads, ClockOwnership.Inv;
    var path, x := ClockLost.SeekerIsLost(c);
    var tr := ClockPaths.Trace(ClockLost.Fresh(c, Idle, [], 0, 0), path, x);
    ClockLost.IsRun(tr, path);
    ClockOwnership.RunInv(tr, path, |path|);
    ClockRoom.RunSame(tr, path, |path|);
    LostAtStart(x);
    var r := RollsOn(x, ClockLost.INS, 0, 0, c.size + 1);
    trace, steps, j := ExtendGoes(tr, path, |path|, 0, c.size + 1, r);
    forall e: nat | e < |r.entries| ensures !r.entries[e].loc.InHandle? { NotStored(x, e); }
    assert r.threads[1] == r.threads[1..][0] == x.threads[1..][0] == x.threads[1];
    forall t: nat | 2 <= t < |r.threads| ensures r.threads[t].Idle? {
      assert r.threads[t] == r.threads[1..][t - 1] == x.threads[1..][t - 1] == x.threads[t];
    }
  }

  lemma LostAtStart(s: State)
    requires ClockOwnership.Inv(s) && |s.threads| > 0 && s.threads[0] == Insert(Lost(ClockLost.INS, 0, 0))
    ensures Shaped(s) && 0 < s.size && ClockLost.INS.e < |s.entries|
  {
    assert ClockOwnership.ThreadOk(s, 0);
  }

  /** With every slot empty and nobody else at work on one, no entry is stored. */
  lemma NotStored(s: State, e: nat)
    requires ClockOwnership.Inv(s) && e < |s.entries| && |s.handles| == s.size
    requires forall h: nat :: h < s.size ==> s.handles[h].meta == EMPTY
    ensures !s.entries[e].loc.InHandle?
  {
    assert ClockOwnership.EntryOk(s, e);
    forall h: nat | h < s.size ensures !ClockOwnership.Occupied(s, h) { assert ClockOwnership.HandleOk(s, h); }
  }

  const FIRST: Key := Key(1, 0)
  const SECOND: Key := Key(2, 0)

  lemma SamePath(k: nat)
    ensures First(FIRST, Pow2(k)) == 0 && First(SECOND, Pow2(k)) == 0 && First(ClockLost.SEEKER, Pow2(k)) == 0
    ensures Turn(FIRST, 0, k) == 0 && Turn(SECOND, 0, k) == 0
  {
    FirstTurn(FIRST, k);
    FirstTurn(SECOND, k);
  }

  /** In an empty table the first entry goes into its first slot. */
  lemma StoresFirst(trace: seq<State>, steps: seq<Step>, j: nat, k: nat) returns (n: nat, r: State)
    requires Run(trace, steps) && j < |trace| && trace[0].size == Pow2(k) && trace[0].occLimit < Pow2(k)
    requires Ready(trace[j], k)
    ensures var go := Start(1, CallInsert(FIRST, 1, 1, false, 100, false));
      Enabled(trace[j], go) && Goes(Apply(trace[j], go), 1, n, r)
    ensures r.threads == trace[j].threads && r.usage == 2 && r.occupancy == 2 && Shaped(r) && r.size == Pow2(k)
    ensures Slots(r)[0].meta.st.Visible? && Slots(r)[0].key == FIRST
    ensures forall h: nat :: 0 < h < r.size ==> Slots(r)[h].meta.st.Empty?
    ensures |r.entries| == |trace[j].entries| + 1
    ensures forall e: nat :: e < |r.entries| && r.entries[e].loc.InHandle? ==>
      e == |trace[j].entries| && r.entries[e].loc.h == 0
    ensures r.entries[|trace[j].entries|].key == FIRST
  {
    hide Goes, Run, ClockTable.AgedAll, Turn, First;
    var s := trace[j];
    SamePath(k);
    LooseNeedMeans(1, 1, 100, false);
    var res, mid, moved, ok;
    n, r, res, mid, moved, ok := Ins.InsertAlone(trace, steps, j, 1, FIRST, 1, 1, false, 100, false, k);
    assert moved == 0;
    KeepsSize(trace, steps, j, 1, CallInsert(FIRST, 1, 1, false, 100, false), n, r, k);
    var ss := mid;
    forall h: nat | h < Pow2(k) ensures ss[h].meta.st.Empty? { assert s.handles[h].meta.st.Empty?; }
    forall h: nat | 0 < h < Pow2(k) ensures Turn(FIRST, 0, k) < Turn(FIRST, h, k) { OnlyFirst(FIRST, h, k); }
  }

  lemma OnlyFirst(key: Key, h: nat, k: nat)
    requires h < Pow2(k) && h != 0 && First(key, Pow2(k)) == 0
    ensures Turn(key, 0, k) == 0 < Turn(key, h, k)
  {
    hide Turn, First;
    FirstTurn(key, k);
  }

  lemma KeepsSize(trace: seq<State>, steps: seq<Step>, j: nat, t: nat, call: Call, n: nat, r: State, k: nat)
    requires Run(trace, steps) && j < |trace| && trace[0].size == Pow2(k)
    requires Enabled(trace[j], Start(t, call)) && Goes(Apply(trace[j], Start(t, call)), t, n, r)
    ensures Shaped(r) && r.size == Pow2(k)
  {
    hide Goes, Run, Enabled, Apply, Consistent;
    RunConsistent(trace, steps, j, k);
    ConsistentStep(trace[j], Start(t, call), k);
    ConsistentGoes(Apply(trace[j], Start(t, call)), t, n, r, k);
    ConsistentShaped(r, k);
  }

  /** The second one is displaced from there. */
  lemma StoresSecond(trace: seq<State>, steps: seq<Step>, j: nat, k: nat) returns (n: nat, r: State, h: nat)
    requires Run(trace, steps) && j < |trace| && trace[0].size == Pow2(k) && trace[0].occLimit < Pow2(k)
    requires var s := trace[j];
      && Shaped(s) && s.size == Pow2(k) && |s.threads| >= 2 && s.threads[1].Idle? && s.usage == 2 && s.occupancy == 2
      && s.occLimit >= 3 && Slots(s)[0].meta.st.Visible? && Slots(s)[0].key == FIRST && s.handles[0].entry < |s.entries|
      && forall g: nat :: 0 < g < s.size ==> Slots(s)[g].meta.st.Empty?
    ensures var go := Start(1, CallInsert(SECOND, 1, 1, false, 100, false));
      Enabled(trace[j], go) && Goes(Apply(trace[j], go), 1, n, r)
    ensures r.threads == trace[j].threads && Shaped(r) && r.size == Pow2(k)
    ensures 0 < h < r.size && Slots(r)[h].meta.st.Visible? && Slots(r)[h].key == SECOND && Slots(r)[0].key == FIRST
    ensures |r.entries| == |trace[j].entries| + 1
    ensures var e := |trace[j].entries|;
      && r.entries[e].key == SECOND && r.entries[e].loc == InHandle(h)
      && forall x: nat :: x < e ==> r.entries[x] == trace[j].entries[x]
  {
    hide Goes, Run, ClockTable.AgedAll, Turn, First;
    var s := trace[j];
    SamePath(k);
    LooseNeedMeans(2, 1, 100, false);
    var res, mid, moved, ok;
    n, r, res, mid, moved, ok := Ins.InsertAlone(trace, steps, j, 1, SECOND, 1, 1, false, 100, false, k);
    assert moved == 0;
    KeepsSize(trace, steps, j, 1, CallInsert(SECOND, 1, 1, false, 100, false), n, r, k);
    var ss := mid;
    forall g: nat | 0 < g < Pow2(k) ensures ss[g].meta.st.Empty? { assert Slots(s)[g].meta.st.Empty?; }
    assert ss[0].meta == Slots(s)[0].meta && ss[0].key == FIRST;
    h := res.h;
  }

  // ---------------------------------------------------------------- the count of the first slot

  /** One entry of all is displaced from slot 0, and the lost insertion has taken back one displacement too many. */
  lemma CountIsZero(s: State, k: nat, e: nat, h: nat)
    requires Consistent(s, k) && s.size == Pow2(k) && |s.threads| >= 1 && e < |s.entries| && 0 < h < s.size
    requires s.threads[0].Insert? && s.threads[0].n.Lost? && s.threads[0].n.n == s.size + 1
    requires s.threads[0].n.ins.key == ClockLost.SEEKER && forall t: nat :: 1 <= t < |s.threads| ==> s.threads[t].Idle?
    requires s.entries[e].key == SECOND && s.entries[e].loc == InHandle(h)
    requires forall x: nat :: x < |s.entries| && x != e && s.entries[x].loc.InHandle? ==>
      s.entries[x].loc.h == 0 && s.entries[x].key == FIRST
    ensures s.handles[0].disp == 0
  {
    hide ClockOwnership.Inv, Turn, First, ClockDisplacement.Paths;
    assert ClockDisplacement.Counted(s, 0, k);
    SamePath(k);
    var ss, ds := ClockDisplacement.Storeds(s.entries, 0, k), ClockDisplacement.Dues(s.entries, s.threads, 0, k);
    OnlyFirst(SECOND, h, k);
    ClockDisplacement.PassesOnce(SECOND, h, 0, k);
    ClockDisplacement.PassesOnce(FIRST, 0, 0, k);
    assert ss[e] == 1;
    SumUpdate(ss, e, 0);
    SumZero(ss[e := 0]);
    SeekerSees(k);
    assert ds[0] == -1;
    SumUpdate(ds, 0, 0);
    SumZero(ds[0 := 0]);
  }

  /** After a round and one slot more the seeker has come by slot 0 twice. */
  lemma SeekerSees(k: nat)
    ensures var key, size := ClockLost.SEEKER, Pow2(k);
      ClockDisplacement.Seen(key, size + 1, 0, size) == ClockDisplacement.Seen(key, size, 0, size) + 1
  {
    hide Turn;
    var key, size := ClockLost.SEEKER, Pow2(k);
    assert Probe(key, size, size) == 0 by { RoundTrip(size); }
  }

  lemma RoundTrip(size: nat)
    requires size > 0
    ensures Probe(ClockLost.SEEKER, size, size) == 0
  {
    ModUnique(size, size, 1, 0);
  }

  /** For every such table with a limit of at least three and two threads or more there is a run on which a Lookup that
      nobody interferes with returns nothing, although a visible entry for its key is in the table. */
  lemma LookupMisses(c: ClockLost.Config, k: nat)
    returns (trace: seq<State>, steps: seq<Step>, j: nat, n: nat, r: State)
    requires c.size == Pow2(k) && 3 <= c.limit < c.size && c.threads >= 2
    ensures Run(trace, steps) && j < |trace| && Find.Present(trace[j], SECOND)
    ensures Enabled(trace[j], Start(1, CallLookup(SECOND)))
    ensures Goes(Apply(trace[j], Start(1, CallLookup(SECOND))), 1, n, r)
    ensures r.threads == trace[j].threads && r.users == trace[j].users
    ensures Find.Hidden(trace[j], SECOND) && trace[0].size == Pow2(k) && |trace[j].threads| >= 2
    ensures trace[j].threads[1].Idle?
  {
    hide Goes, Run, Consistent, Enabled, Apply, Turn, Probe, First, Find.Comes;
    var a, b, i := GetsReady(c, k);
    var go1, go2 := Start(1, CallInsert(FIRST, 1, 1, false, 100, false)),
      Start(1, CallInsert(SECOND, 1, 1, false, 100, false));
    var n1, s1 := StoresFirst(a, b, i, k);
    var e1, f1 := Extend(a, b, i, go1);
    var a1, b1, i1 := ExtendGoes(e1, f1, i + 1, 1, n1, s1);
    ClockRoom.RunSame(a1, b1, i1);
    SlotEntry(a1, b1, i1, k);
    var n2, s2, h := StoresSecond(a1, b1, i1, k);
    var e2, f2 := Extend(a1, b1, i1, go2);
    trace, steps, j := ExtendGoes(e2, f2, i1 + 1, 1, n2, s2);
    RunConsistent(trace, steps, j, k);
    CountIsZero(s2, k, |s1.entries|, h);
    SharedEntry(s2, h, k);
    assert Find.Hit(s2, h, SECOND);
    CanLookUp(s2);
    var q, hit;
    n, q, hit, r := Find.LookupAlone(s2, 1, SECOND);
    StopsAtFirst(s2, q, hit, k);
    HiddenByFirst(s2, k);
  }

  lemma HiddenByFirst(s: State, k: nat)
    requires Shaped(s) && s.size == Pow2(k) && s.handles[0].disp == 0 && Slots(s)[0].key == FIRST
    ensures Find.Hidden(s, SECOND)
  {
    hide Probe;
    SamePath(k);
    Find.AtZeroth(SECOND, s.size);
    forall q: nat {:trigger Probe(SECOND, q, s.size)} | q < s.size && Find.Hit(s, Probe(SECOND, q, s.size), SECOND)
      ensures !Find.NoZero(s, SECOND, q)
    {
      if q > 0 { assert s.handles[Probe(SECOND, 0, s.size)].disp == 0; }
    }
  }

  /** In the same state an Erase that nobody interferes with leaves the entry where it is. */
  lemma EraseMisses(c: ClockLost.Config, k: nat)
    returns (trace: seq<State>, steps: seq<Step>, j: nat, n: nat, r: State)
    requires c.size == Pow2(k) && 3 <= c.limit < c.size && c.threads >= 2
    ensures Run(trace, steps) && j < |trace| && Enabled(trace[j], Start(1, CallErase(SECOND)))
    ensures Goes(Apply(trace[j], Start(1, CallErase(SECOND))), 1, n, r) && r.threads == trace[j].threads
    ensures Find.Present(r, SECOND)
  {
    hide Goes, Run, Find.Hit, Find.NoZero, Probe, ClockSoloErase.ErasedUpTo, ClockSoloErase.EndsAt;
    var n1, r1, q;
    trace, steps, j, n1, r1 := LookupMisses(c, k);
    n, q, r := ClockSoloErase.EraseRightIff(trace, steps, j, 1, SECOND, k);
    Find.ProbesAll(trace[j], SECOND, k);
    var x: nat :| x < trace[j].size && Find.Hit(trace[j], Probe(SECOND, x, trace[j].size), SECOND);
    assert !Find.NoZero(trace[j], SECOND, x);
  }

  lemma SlotEntry(trace: seq<State>, steps: seq<Step>, i: nat, k: nat)
    requires Run(trace, steps) && i < |trace| && trace[0].size == Pow2(k)
    requires Shaped(trace[i]) && Slots(trace[i])[0].meta.st.Visible?
    ensures trace[i].handles[0].entry < |trace[i].entries|
  {
    hide Run;
    ClockOwnership.RunInv(trace, steps, i);
    SharedIsStored(trace[i], 0);
  }

  lemma SharedEntry(s: State, h: nat, k: nat)
    requires Consistent(s, k) && h < s.size && Slots(s)[h].meta.st.Visible?
    ensures s.handles[h].entry < |s.entries|
  {
    hide ClockOwnership.Inv;
    SharedIsStored(s, h);
  }

  lemma CanLookUp(s: State)
    requires Shaped(s) && |s.threads| >= 2 && s.threads[1].Idle?
    ensures Enabled(s, Start(1, CallLookup(SECOND)))
  {
  }

  lemma StopsAtFirst(s: State, q: nat, hit: bool, k: nat)
    requires Shaped(s) && s.size == Pow2(k) && s.handles[0].disp == 0 && Slots(s)[0].key == FIRST && q < s.size
    requires Find.Comes(s, SECOND, 0, q) && (hit ==> Find.Hit(s, Probe(SECOND, q, s.size), SECOND))
    ensures !hit
  {
    hide Probe;
    SamePath(k);
    Find.AtZeroth(SECOND, s.size);
  }
}
