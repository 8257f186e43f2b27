/**
 What the operations of the SuperVersion hand-off come to: every position is left again, a get returns the current
 SuperVersion, a return gives it back, an install replaces it everywhere, and a column family that goes is taken down.
 */
module SuperVersionProgress {
  import opened Basics
  import opened SuperVersionMachine
  import opened SuperVersionInvariant
  import opened SuperVersionRuns

  /** The steps lead from s to r. */
  ghost predicate Leads(s: State, path: seq<Step>, r: State)
    decreases |path|
  {
    if path == [] then r == s else Enabled(s, path[0]) && Leads(Apply(s, path[0]), path[1..], r)
  }

  lemma OneStep(s: State, step: Step)
    requires Enabled(s, step)
    ensures Leads(s, [step], Apply(s, step))
  {
    assert [step][1..] == [];
  }

  lemma Stay(s: State)
    ensures Leads(s, [], s)
  {
  }

  lemma {:induction false} LeadsThen(s: State, p: seq<Step>, m: State, q: seq<Step>, r: State)
    requires Leads(s, p, m) && Leads(m, q, r)
    ensures Leads(s, p + q, r)
    decreases |p|
  {
    hide Enabled, Apply;
    if p == [] {
      assert p + q == q;
    } else {
      assert (p + q)[0] == p[0] && (p + q)[1..] == p[1..] + q;
      LeadsThen(Apply(s, p[0]), p[1..], m, q, r);
    }
  }

  lemma Follow(s: State, p: seq<Step>, m: State, step: Step)
    requires Leads(s, p, m) && Enabled(m, step)
    ensures Leads(s, p + [step], Apply(m, step))
  {
    OneStep(m, step);
    LeadsThen(s, p, m, [step], Apply(m, step));
  }

  lemma {:induction false} LeadsInv(s: State, path: seq<Step>, r: State)
    requires Inv(s) && Leads(s, path, r)
    ensures Inv(r)
    decreases |path|
  {
    hide Inv, Enabled, Apply;
    if path != [] {
      StepKeepsInv(s, path[0]);
      LeadsInv(Apply(s, path[0]), path[1..], r);
    }
  }

  // ---------------------------------------------------------------- positions are left

  /** How far a reader is from having its SuperVersion, or from having given it back. */
  function Distance(pc: Pc): nat {
    match pc
    case Swapped(_) => 6
    case Stale(_) => 5
    case StaleLast(_) => 4
    case CleaningStale(_) => 3
    case Waiting => 3
    case Locked => 2
    case Reffed(_) => 1
    case Returning(_) => 3
    case ReturnLast(_) => 2
    case CleaningReturn(_) => 1
    case Borrowing(_) => 0
    case Idle => 0
  }

  predicate WantsMutex(pc: Pc) {
    pc.StaleLast? || pc.Waiting? || pc.ReturnLast?
  }

  /** The position that thread t is in after the step is nearer. */
  predicate Nearer(s: State, t: nat, step: Step)
    requires t < |s.threads| && Enabled(s, step)
  {
    t < |Apply(s, step).threads| && Distance(Apply(s, step).threads[t].pc) < Distance(s.threads[t].pc)
  }

  lemma CleaningNearer(s: State, t: nat)
    requires Inv(s) && t < |s.threads| && (s.threads[t].pc.CleaningStale? || s.threads[t].pc.CleaningReturn?)
    ensures var step := Read(t, if s.threads[t].pc.CleaningStale? then CleanStale else CleanReturn);
      Enabled(s, step) && Nearer(s, t, step)
  {
    hide Inv, Cleanup;
    var v := s.threads[t].pc.sv;
    if s.threads[t].pc.CleaningStale? {
      CleanupKeepsPcs(SetPc(s, t, Locked), v);
    } else {
      CleanupKeepsPcs(SetPc(s, t, Idle).(mutex := None), v);
    }
  }

  /** The next step of a reader that is under way. */
  function Next(pc: Pc): ReaderOp
    requires Distance(pc) > 0
  {
    match pc
    case Swapped(_) => Check
    case Stale(_) => UnrefStale
    case StaleLast(_) => Lock
    case CleaningStale(_) => CleanStale
    case Waiting => Lock
    case Locked => RefCurrent
    case Reffed(_) => Unlock
    case Returning(_) => UnrefReturned
    case ReturnLast(_) => LockReturn
    case CleaningReturn(_) => CleanReturn
  }

  /** In every state of every run a reader that is under way has a next step, which brings it nearer to having its
      SuperVersion or to having given it back; or it waits for the mutex. */
  lemma ReadersGoOn(trace: seq<State>, steps: seq<Step>, i: nat, t: nat)
    requires Run(trace, steps) && i < |trace| && t < |trace[i].threads| && Distance(trace[i].threads[t].pc) > 0
    ensures GoesOn(trace[i], t)
  {
    hide Inv, Run;
    RunInv(trace, steps, i);
    ReaderGoesOn(trace[i], t);
  }

  /** Reader t has a next step and it brings it nearer, or it has to wait for the mutex. */
  predicate GoesOn(s: State, t: nat)
    requires t < |s.threads| && Distance(s.threads[t].pc) > 0
  {
    var step := Read(t, Next(s.threads[t].pc));
    if WantsMutex(s.threads[t].pc) && s.mutex.Some? then !Enabled(s, step) else Enabled(s, step) && Nearer(s, t, step)
  }

  lemma ReaderGoesOn(s: State, t: nat)
    requires Inv(s) && t < |s.threads| && Distance(s.threads[t].pc) > 0
    ensures GoesOn(s, t)
  {
    hide Inv, Cleanup, UnrefCf;
    if s.threads[t].pc.CleaningStale? || s.threads[t].pc.CleaningReturn? { CleaningNearer(s, t); }
    if s.threads[t].pc.Locked? { LockedHasCurrent(s, t); }
  }

  lemma LockedHasCurrent(s: State, t: nat)
    requires Inv(s) && t < |s.threads| && s.threads[t].pc.Locked?
    ensures s.current.Some?
  {
    assert ThreadOk(s, t, s.threads[t]);
  }

  /** Under the mutex a reader references the SuperVersion that is current then. */
  lemma RefGetsCurrent(trace: seq<State>, steps: seq<Step>, i: nat, t: nat)
    requires Run(trace, steps) && i < |steps| && steps[i] == Read(t, RefCurrent)
    ensures trace[i].current.Some? && t < |trace[i + 1].threads|
    ensures trace[i + 1].threads[t].pc == Reffed(trace[i].current.value)
  {
    hide Inv;
    RunInv(trace, steps, i);
    LockedHasCurrent(trace[i], t);
  }

  /** How far an install is from its end. */
  function InstallDistance(s: State): nat {
    match s.inst
    case Off => 0
    case CleaningOld(_) => 1
    case Unreffing(_) => 2 + |s.scraped|
    case Scraping(_, next) => 3 + 2 * (if next < |s.threads| then |s.threads| - next else 0) + |s.scraped|
    case Numbered(_) => 4 + 2 * |s.threads| + |s.scraped|
    case Published(_) => 5 + 2 * |s.threads| + |s.scraped|
  }

  function TearDistance(s: State): nat {
    match s.tear
    case NoTear => 0
    case TearLast(_) => 1
    case Resetting(_, next) => 2 + if next < |s.threads| then |s.threads| - next else 0
  }

  // ---------------------------------------------------------------- getting and giving back

  /** The path is made of thread t's own steps. */
  predicate Alone(path: seq<Step>, t: nat) {
    forall i :: 0 <= i < |path| ==> path[i].Read? && path[i].t == t
  }

  /** s, with thread t at th and d more references to v. */
  function With(s: State, t: nat, th: Thread, v: nat, d: int): State
    requires t < |s.threads|
  {
    AddRefs(s, v, d).(threads := s.threads[t := th])
  }

  lemma WithMoved(s: State, t: nat, x: Thread, th: Thread, v: nat, d: int)
    requires t < |s.threads|
    ensures With(s.(threads := s.threads[t := x]), t, th, v, d) == With(s, t, th, v, d)
  {
    assert s.threads[t := x][t := th] == s.threads[t := th];
  }

  lemma IdleSlot(s: State, t: nat, v: nat)
    requires Inv(s) && t < |s.threads| && s.threads[t].pc.Idle? && s.mutex.None? && s.current == Some(v)
    ensures s.inst.Off? && s.tear.NoTear? && v < |s.svs| && s.svs[v].version == s.number
    ensures s.threads[t].slot == Obsolete || s.threads[t].slot == Cached(v)
  {
    assert ThreadOk(s, t, s.threads[t]);
  }

  lemma GetsCached(s: State, t: nat, v: nat)
    requires t < |s.threads| && s.threads[t] == Thread(Cached(v), Idle) && s.cfExternal > 0 && s.current == Some(v)
    requires v < |s.svs| && s.svs[v].version == s.number
    ensures Leads(s, [Read(t, Swap), Read(t, Check)], s.(threads := s.threads[t := Thread(InUse, Borrowing(v))]))
  {
    hide Leads;
    var s1 := Apply(s, Read(t, Swap));
    OneStep(s, Read(t, Swap));
    Follow(s, [Read(t, Swap)], s1, Read(t, Check));
    assert s1.threads[t := Thread(InUse, Borrowing(v))] == s.threads[t := Thread(InUse, Borrowing(v))];
    assert [Read(t, Swap)] + [Read(t, Check)] == [Read(t, Swap), Read(t, Check)];
  }

  /** The steps of a get that finds nothing cached. */
  function SlowPath(t: nat): seq<Step> {
    [Read(t, Swap)] + [Read(t, Check)] + ([Read(t, Lock)] + [Read(t, RefCurrent)] + [Read(t, Unlock)])
  }

  lemma FindsNothing(s: State, t: nat)
    requires t < |s.threads| && s.threads[t] == Thread(Obsolete, Idle) && s.cfExternal > 0 && s.current.Some?
    ensures Leads(s, [Read(t, Swap)] + [Read(t, Check)], s.(threads := s.threads[t := Thread(InUse, Waiting)]))
  {
    hide Leads;
    var s1 := s.(threads := s.threads[t := Thread(InUse, Swapped(None))]);
    assert Apply(s, Read(t, Swap)) == s1;
    OneStep(s, Read(t, Swap));
    Follow(s, [Read(t, Swap)], s1, Read(t, Check));
    assert s1.threads[t := Thread(InUse, Waiting)] == s.threads[t := Thread(InUse, Waiting)];
  }

  lemma Locks(s: State, t: nat)
    requires t < |s.threads| && s.threads[t] == Thread(InUse, Waiting) && s.mutex.None?
    ensures Enabled(s, Read(t, Lock))
    ensures Apply(s, Read(t, Lock)) == s.(threads := s.threads[t := Thread(InUse, Locked)], mutex := Some(ByThread(t)))
  {
  }

  lemma RefsUnder(s: State, t: nat, v: nat)
    requires t < |s.threads| && s.current == Some(v)
    ensures var m := s.(threads := s.threads[t := Thread(InUse, Locked)], mutex := Some(ByThread(t)));
      && Enabled(m, Read(t, RefCurrent))
      && Apply(m, Read(t, RefCurrent)) == With(s, t, Thread(InUse, Reffed(v)), v, 1).(mutex := Some(ByThread(t)))
  {
    var m := s.(threads := s.threads[t := Thread(InUse, Locked)], mutex := Some(ByThread(t)));
    assert m.threads[t := Thread(InUse, Reffed(v))] == s.threads[t := Thread(InUse, Reffed(v))];
  }

  lemma Unlocks(s: State, t: nat, v: nat)
    requires t < |s.threads| && s.mutex.None?
    ensures var m := With(s, t, Thread(InUse, Reffed(v)), v, 1).(mutex := Some(ByThread(t)));
      Enabled(m, Read(t, Unlock)) && Apply(m, Read(t, Unlock)) == With(s, t, Thread(InUse, Borrowing(v)), v, 1)
  {
    hide AddRefs;
    var m := With(s, t, Thread(InUse, Reffed(v)), v, 1).(mutex := Some(ByThread(t)));
    assert m.threads[t := Thread(InUse, Borrowing(v))] == s.threads[t := Thread(InUse, Borrowing(v))];
    assert AddRefs(s, v, 1).mutex == None by { RefsOnly(s, v, 1); }
  }

  lemma RefsOnly(s: State, v: nat, d: int)
    ensures AddRefs(s, v, d) == s.(svs := AddRefs(s, v, d).svs)
  {
  }

  /** Under the mutex. */
  lemma RefsCurrent(s: State, t: nat, v: nat)
    requires t < |s.threads| && s.threads[t] == Thread(InUse, Waiting) && s.current == Some(v) && s.mutex.None?
    ensures Leads(s, [Read(t, Lock)] + [Read(t, RefCurrent)] + [Read(t, Unlock)],
                  With(s, t, Thread(InUse, Borrowing(v)), v, 1))
  {
    hide Leads, Apply, Enabled, With;
    var mine := Some(ByThread(t));
    var s1 := s.(threads := s.threads[t := Thread(InUse, Locked)], mutex := mine);
    var s2 := With(s, t, Thread(InUse, Reffed(v)), v, 1).(mutex := mine);
    Locks(s, t);
    OneStep(s, Read(t, Lock));
    RefsUnder(s, t, v);
    Follow(s, [Read(t, Lock)], s1, Read(t, RefCurrent));
    Unlocks(s, t, v);
    Follow(s, [Read(t, Lock)] + [Read(t, RefCurrent)], s2, Read(t, Unlock));
  }

  lemma GetsUncached(s: State, t: nat, v: nat)
    requires t < |s.threads| && s.threads[t] == Thread(Obsolete, Idle) && s.cfExternal > 0 && s.current == Some(v)
    requires v < |s.svs| && s.mutex.None?
    ensures Leads(s, SlowPath(t), With(s, t, Thread(InUse, Borrowing(v)), v, 1))
  {
    hide Leads, Enabled, Apply, With;
    var m := s.(threads := s.threads[t := Thread(InUse, Waiting)]);
    FindsNothing(s, t);
    RefsCurrent(m, t, v);
    WithMoved(s, t, Thread(InUse, Waiting), Thread(InUse, Borrowing(v)), v, 1);
    LeadsThen(s, [Read(t, Swap)] + [Read(t, Check)], m, [Read(t, Lock)] + [Read(t, RefCurrent)] + [Read(t, Unlock)],
              With(s, t, Thread(InUse, Borrowing(v)), v, 1));
  }

  /** A get that nobody interferes with returns the current SuperVersion: the cached pointer, with no count changed, or
      a new reference. */
  lemma GetReturnsCurrent(trace: seq<State>, steps: seq<Step>, i: nat, t: nat, v: nat)
    returns (path: seq<Step>, r: State)
    requires Run(trace, steps) && i < |trace| && t < |trace[i].threads| && trace[i].threads[t].pc.Idle?
    requires trace[i].mutex.None? && trace[i].current == Some(v) && trace[i].cfExternal > 0
    ensures Leads(trace[i], path, r) && Alone(path, t)
    ensures r == With(trace[i], t, Thread(InUse, Borrowing(v)), v, B(trace[i].threads[t].slot.Obsolete?))
  {
    hide Inv, Leads;
    var s := trace[i];
    RunInv(trace, steps, i);
    IdleSlot(s, t, v);
    r := With(s, t, Thread(InUse, Borrowing(v)), v, B(s.threads[t].slot.Obsolete?));
    if s.threads[t].slot.Obsolete? {
      GetsUncached(s, t, v);
      path := SlowPath(t);
    } else {
      GetsCached(s, t, v);
      path := [Read(t, Swap), Read(t, Check)];
      assert s.svs[v := s.svs[v].(refs := s.svs[v].refs + 0)] == s.svs;
    }
  }

  /** Giving back a SuperVersion that nobody has scraped caches it, with no count changed. */
  lemma ReturnCaches(trace: seq<State>, steps: seq<Step>, i: nat, t: nat, v: nat)
    requires Run(trace, steps) && i < |trace| && t < |trace[i].threads|
    requires trace[i].threads[t] == Thread(InUse, Borrowing(v))
    ensures Leads(trace[i], [Read(t, Return)], trace[i].(threads := trace[i].threads[t := Thread(Cached(v), Idle)]))
  {
    OneStep(trace[i], Read(t, Return));
  }

  /** So a get and a return with a cached pointer leave everything as it was. */
  lemma GetAndReturn(trace: seq<State>, steps: seq<Step>, i: nat, t: nat, v: nat)
    requires Run(trace, steps) && i < |trace| && t < |trace[i].threads|
      && trace[i].threads[t] == Thread(Cached(v), Idle)
    requires trace[i].mutex.None? && trace[i].current.Some? && trace[i].cfExternal > 0
    ensures Leads(trace[i], [Read(t, Swap), Read(t, Check), Read(t, Return)], trace[i])
  {
    hide Inv, Leads;
    var s := trace[i];
    RunInv(trace, steps, i);
    IdleSlot(s, t, s.current.value);
    GetsCached(s, t, v);
    var m := s.(threads := s.threads[t := Thread(InUse, Borrowing(v))]);
    Follow(s, [Read(t, Swap), Read(t, Check)], m, Read(t, Return));
    assert m.threads[t := Thread(Cached(v), Idle)] == s.threads;
    assert [Read(t, Swap), Read(t, Check)] + [Read(t, Return)] == [Read(t, Swap), Read(t, Check), Read(t, Return)];
  }

  /** What is left of v's count after one reference is gone, and of the cleanups if it was the last. */
  predicate OneGone(s: State, r: State, v: nat) {
    && v < |s.svs| && |r.svs| == |s.svs|
    && r.svs[v] == Sv(s.svs[v].version, s.svs[v].refs - 1, B(s.svs[v].refs == 1))
    && forall u: nat :: u < |s.svs| && u != v ==> r.svs[u] == s.svs[u]
  }

  lemma CleanupSvs(s: State, v: nat)
    requires v < |s.svs|
    ensures Cleanup(s, v).svs == s.svs[v := s.svs[v].(cleanups := s.svs[v].cleanups + 1)]
    ensures Cleanup(s, v).threads == s.threads
  {
  }

  /** Giving back a SuperVersion after the slot was scraped drops the reference, and cleans up after the last one. */
  lemma ReturnDrops(trace: seq<State>, steps: seq<Step>, i: nat, t: nat, v: nat) returns (path: seq<Step>, r: State)
    requires Run(trace, steps) && i < |trace| && t < |trace[i].threads| && trace[i].mutex.None?
    requires trace[i].threads[t] == Thread(Obsolete, Borrowing(v))
    ensures Leads(trace[i], path, r) && Alone(path, t) && OneGone(trace[i], r, v)
    ensures r.threads == trace[i].threads[t := Thread(Obsolete, Idle)]
  {
    hide Inv, Leads, Cleanup;
    var s := trace[i];
    RunInv(trace, steps, i);
    OwnedIsLive(s, t, v);
    var s1 := s.(threads := s.threads[t := Thread(Obsolete, Returning(v))]);
    assert Apply(s, Read(t, Return)) == s1;
    OneStep(s, Read(t, Return));
    path := [Read(t, Return)];
    Follow(s, path, s1, Read(t, UnrefReturned));
    path := path + [Read(t, UnrefReturned)];
    r := Apply(s1, Read(t, UnrefReturned));
    if s.svs[v].refs == 1 {
      var s2 := With(s, t, Thread(Obsolete, ReturnLast(v)), v, -1);
      assert r == s2;
      var s3 := With(s, t, Thread(Obsolete, CleaningReturn(v)), v, -1).(mutex := Some(ByThread(t)));
      assert Apply(s2, Read(t, LockReturn)) == s3;
      Follow(s, path, s2, Read(t, LockReturn));
      path := path + [Read(t, LockReturn)];
      Follow(s, path, s3, Read(t, CleanReturn));
      path := path + [Read(t, CleanReturn)];
      r := Apply(s3, Read(t, CleanReturn));
      CleanupSvs(SetPc(s3, t, Idle).(mutex := None), v);
    }
  }

  lemma OwnedIsLive(s: State, t: nat, v: nat)
    requires Inv(s) && t < |s.threads| && Owns(s.threads[t].pc, v)
    ensures v < |s.svs| && s.svs[v].refs > 0 && s.svs[v].cleanups == 0
  {
    ThreadMember(s.threads, t, v);
    HeldIsLive(s, v);
  }

  // ---------------------------------------------------------------- installing

  predicate Installs(path: seq<Step>) {
    forall i :: 0 <= i < |path| ==> path[i].Install?
  }

  /** What the steps of an install after the version stamp leave alone. */
  predicate SameRest(s: State, r: State) {
    && r.current == s.current && r.number == s.number && r.tear == s.tear && r.pins == s.pins
    && r.cfExternal == s.cfExternal && |r.svs| == |s.svs|
    && forall v: nat :: v < |s.svs| ==> r.svs[v].version == s.svs[v].version
  }

  lemma ScrapeOne(s: State)
    requires s.inst.Scraping? && s.inst.next < |s.threads|
    ensures var r, n := Apply(s, Install(ScrapeNext)), s.inst.next;
      && r.inst == Scraping(s.inst.prev, n + 1) && SameRest(s, r) && |r.threads| == |s.threads|
      && r.threads == s.threads[n := Thread(Obsolete, s.threads[n].pc)] && r.mutex == s.mutex
  {
  }

  lemma {:induction false} ScrapesAll(s: State) returns (path: seq<Step>, r: State)
    requires s.inst.Scraping?
    ensures Leads(s, path, r) && Installs(path) && SameRest(s, r) && r.inst == Unreffing(s.inst.prev)
    ensures |r.threads| == |s.threads| && r.mutex == s.mutex
    ensures forall t: nat :: t < |s.threads| ==>
      r.threads[t] == if t < s.inst.next then s.threads[t] else Thread(Obsolete, s.threads[t].pc)
    decreases |s.threads| - s.inst.next
  {
    hide Leads;
    if s.inst.next < |s.threads| {
      hide Apply;
      var m := Apply(s, Install(ScrapeNext));
      ScrapeOne(s);
      OneStep(s, Install(ScrapeNext));
      var more;
      more, r := ScrapesAll(m);
      LeadsThen(s, [Install(ScrapeNext)], m, more, r);
      path := [Install(ScrapeNext)] + more;
    } else {
      OneStep(s, Install(ScrapeDone));
      path, r := [Install(ScrapeDone)], Apply(s, Install(ScrapeDone));
    }
  }

  lemma UnrefOne(s: State, v: nat)
    requires s.inst.Unreffing? && v in s.scraped
    ensures var r := Apply(s, Install(UnrefScraped(v)));
      && r.inst == s.inst && SameRest(s, r) && r.threads == s.threads && r.mutex == s.mutex
      && |r.scraped| == |s.scraped| - 1
  {
    assert |s.scraped - multiset{v}| == |s.scraped| - 1;
  }

  lemma {:induction false} UnrefsAll(s: State) returns (path: seq<Step>, r: State)
    requires s.inst.Unreffing?
    ensures Leads(s, path, r) && Installs(path) && SameRest(s, r) && r.inst == s.inst && r.scraped == multiset{}
    ensures r.threads == s.threads && r.mutex == s.mutex
    decreases |s.scraped|
  {
    hide Leads, Apply;
    if s.scraped == multiset{} {
      Stay(s);
      path, r := [], s;
    } else {
      var v :| v in s.scraped;
      var m := Apply(s, Install(UnrefScraped(v)));
      UnrefOne(s, v);
      OneStep(s, Install(UnrefScraped(v)));
      var more;
      more, r := UnrefsAll(m);
      LeadsThen(s, [Install(UnrefScraped(v))], m, more, r);
      path := [Install(UnrefScraped(v))] + more;
    }
  }

  lemma CleansOld(s: State)
    requires Inv(s) && s.inst.CleaningOld?
    ensures var r := Apply(s, Install(CleanOld));
      r.inst.Off? && r.mutex.None? && SameRest(s, r) && r.threads == s.threads
  {
    hide Core;
    OldIsUncleaned(s);
  }

  lemma OldIsUncleaned(s: State)
    requires Inv(s) && s.inst.CleaningOld?
    ensures s.inst.prev < |s.svs| && s.cfExternal > 0 && s.current.Some? && s.cfRefs >= 3
  {
    var v, u := s.inst.prev, s.current.value;
    assert Balanced(s, v) && Balanced(s, u);
    UncleanedMembers(s.svs, u, v);
  }

  /** Dropping the replaced SuperVersion ends the install. */
  lemma DropsOld(s: State) returns (path: seq<Step>, r: State)
    requires Inv(s) && s.inst.Unreffing? && s.scraped == multiset{}
    ensures Leads(s, path, r) && Installs(path) && SameRest(s, r) && r.inst.Off? && r.mutex.None?
    ensures r.threads == s.threads
  {
    hide Leads, Inv;
    var m := Apply(s, Install(DropOld));
    OneStep(s, Install(DropOld));
    path, r := [Install(DropOld)], m;
    if m.inst.CleaningOld? {
      StepKeepsInv(s, Install(DropOld));
      CleansOld(m);
      Follow(s, path, m, Install(CleanOld));
      path, r := path + [Install(CleanOld)], Apply(m, Install(CleanOld));
    }
  }

  /** From the version stamp on. */
  lemma Replaces(s: State) returns (path: seq<Step>, r: State)
    requires Inv(s) && s.inst.Scraping? && s.inst.next == 0
    ensures Leads(s, path, r) && Installs(path) && SameRest(s, r) && r.inst.Off? && r.mutex.None?
    ensures |r.threads| == |s.threads|
    ensures forall t: nat :: t < |s.threads| ==> r.threads[t] == Thread(Obsolete, s.threads[t].pc)
  {
    hide Leads, Inv, Apply;
    var p, m := ScrapesAll(s);
    var q, n := UnrefsAll(m);
    LeadsThen(s, p, m, q, n);
    LeadsInv(s, p + q, n);
    var x;
    x, r := DropsOld(n);
    LeadsThen(s, p + q, n, x, r);
    path := p + q + x;
  }

  /** super_version_ is set. */
  function Begun(s: State): State {
    s.(svs := s.svs + [Sv(0, 1, 0)], current := Some(|s.svs|), mutex := Some(ByInstaller),
       inst := Published(s.current), cfRefs := s.cfRefs + 1)
  }

  lemma Begins(s: State)
    requires s.mutex.None? && s.cfExternal > 0
    ensures Enabled(s, Install(BeginInstall)) && Apply(s, Install(BeginInstall)) == Begun(s)
  {
  }

  lemma Numbers(s: State)
    ensures var m := Begun(s).(number := s.number + 1, inst := Numbered(s.current));
      Enabled(Begun(s), Install(BumpNumber)) && Apply(Begun(s), Install(BumpNumber)) == m
  {
  }

  lemma Stamps(s: State) returns (m: State)
    ensures var n := Begun(s).(number := s.number + 1, inst := Numbered(s.current));
      Enabled(n, Install(Stamp)) && m == Apply(n, Install(Stamp))
    ensures m.current == Some(|s.svs|) && m.number == s.number + 1 && m.threads == s.threads && m.pins == s.pins
    ensures |m.svs| == |s.svs| + 1 && m.svs[|s.svs|].version == s.number + 1
    ensures if s.current.Some? then m.inst == Scraping(s.current.value, 0) else m.inst.Off? && m.mutex.None?
  {
    m := Apply(Begun(s).(number := s.number + 1, inst := Numbered(s.current)), Install(Stamp));
  }

  lemma Publishes(s: State) returns (path: seq<Step>, m: State)
    requires s.mutex.None? && s.cfExternal > 0
    ensures Leads(s, path, m) && Installs(path)
    ensures m.current == Some(|s.svs|) && m.number == s.number + 1 && m.threads == s.threads && m.pins == s.pins
    ensures |m.svs| == |s.svs| + 1 && m.svs[|s.svs|].version == s.number + 1
    ensures if s.current.Some? then m.inst == Scraping(s.current.value, 0) else m.inst.Off? && m.mutex.None?
  {
    hide Leads, Apply, Enabled, Begun;
    Begins(s);
    Numbers(s);
    m := Stamps(s);
    OneStep(s, Install(BeginInstall));
    path := [Install(BeginInstall)];
    Follow(s, path, Begun(s), Install(BumpNumber));
    path := path + [Install(BumpNumber)];
    Follow(s, path, Begun(s).(number := s.number + 1, inst := Numbered(s.current)), Install(Stamp));
    path := path + [Install(Stamp)];
  }

  lemma NoneCached(s: State, t: nat)
    requires Inv(s) && s.current.None? && s.mutex.None? && t < |s.threads|
    ensures !s.threads[t].slot.Cached?
  {
    assert ThreadOk(s, t, s.threads[t]);
  }

  /** An install that nobody interferes with ends with a new SuperVersion current, under the next number, which no
      thread-local slot contradicts: the old one is cached nowhere. */
  lemma InstallReplaces(trace: seq<State>, steps: seq<Step>, i: nat) returns (path: seq<Step>, r: State)
    requires Run(trace, steps) && i < |trace| && trace[i].mutex.None? && trace[i].cfExternal > 0
    ensures Leads(trace[i], path, r) && Installs(path) && r.inst.Off? && r.mutex.None?
    ensures r.current == Some(|trace[i].svs|) && |r.svs| == |trace[i].svs| + 1
    ensures r.number == trace[i].number + 1 == r.svs[|trace[i].svs|].version
    ensures |r.threads| == |trace[i].threads| && r.pins == trace[i].pins
    ensures forall t: nat :: t < |r.threads| ==>
      r.threads[t].pc == trace[i].threads[t].pc && !r.threads[t].slot.Cached?
  {
    hide Leads, Inv, Apply, Run;
    var s := trace[i];
    RunInv(trace, steps, i);
    path, r := Publishes(s);
    if s.current.Some? {
      LeadsInv(s, path, r);
      var m, p, q := r, path, [];
      q, r := Replaces(m);
      LeadsThen(s, p, m, q, r);
      path := p + q;
    } else {
      forall t: nat | t < |s.threads| ensures !s.threads[t].slot.Cached? { NoneCached(s, t); }
    }
  }

  // ---------------------------------------------------------------- whoever has the mutex goes on

  predicate StepOf(o: Owner, step: Step) {
    match o
    case ByThread(t) => step.Read? && step.t == t
    case ByInstaller => step.Install?
    case ByTear => step.Family?
  }

  /** How far the holder of the mutex is from giving it back, or further on. */
  function Effort(s: State, o: Owner): nat {
    match o
    case ByThread(t) => if t < |s.threads| then Distance(s.threads[t].pc) else 0
    case ByInstaller => InstallDistance(s)
    case ByTear => TearDistance(s)
  }

  ghost predicate OwnerGoesOn(s: State, o: Owner, step: Step) {
    Enabled(s, step) && StepOf(o, step) && Effort(Apply(s, step), o) < Effort(s, o)
  }

  lemma ScrapingGoesOn(s: State) returns (step: Step)
    requires s.inst.Scraping?
    ensures OwnerGoesOn(s, ByInstaller, step)
  {
    step := Install(if s.inst.next < |s.threads| then ScrapeNext else ScrapeDone);
  }

  lemma UnreffingGoesOn(s: State) returns (step: Step)
    requires s.inst.Unreffing?
    ensures OwnerGoesOn(s, ByInstaller, step)
  {
    if s.scraped == multiset{} {
      step := Install(DropOld);
    } else {
      var v :| v in s.scraped;
      UnrefOne(s, v);
      step := Install(UnrefScraped(v));
    }
  }

  lemma InstallerGoesOn(s: State) returns (step: Step)
    requires Inv(s) && !s.inst.Off?
    ensures OwnerGoesOn(s, ByInstaller, step)
  {
    hide Inv, Cleanup;
    match s.inst
    case Published(_) => step := Install(BumpNumber);
    case Numbered(_) => step := Install(Stamp);
    case Scraping(_, _) => step := ScrapingGoesOn(s);
    case Unreffing(_) => step := UnreffingGoesOn(s);
    case CleaningOld(_) => CleansOld(s); step := Install(CleanOld);
  }

  lemma TearGoesOn(s: State) returns (step: Step)
    requires Inv(s) && !s.tear.NoTear?
    ensures OwnerGoesOn(s, ByTear, step)
  {
    hide Inv, Cleanup;
    match s.tear
    case Resetting(_, next) => step := Family(if next < |s.threads| then ResetSlot else DropCurrent);
    case TearLast(_) => CleansCurrent(s); step := Family(CleanCurrent);
  }

  lemma CleansCurrent(s: State)
    requires Inv(s) && s.tear.TearLast?
    ensures var r := Apply(s, Family(CleanCurrent)); r.tear.NoTear? && r.mutex.None? && r.threads == s.threads
  {
  }

  lemma MutexOwner(s: State)
    requires Inv(s) && s.mutex.Some?
    ensures match s.mutex.value
            case ByThread(t) => t < |s.threads| && HoldsMutex(s.threads[t].pc)
            case ByInstaller => !s.inst.Off?
            case ByTear => !s.tear.NoTear?
  {
    if s.mutex.value.ByThread? { assert ThreadOk(s, s.mutex.value.t, s.threads[s.mutex.value.t]); }
  }

  /** In every state of every run whoever has the mutex has a next step, which brings them nearer to the end of what
      they have it for: nobody waits for the mutex in vain. */
  lemma HolderGoesOn(trace: seq<State>, steps: seq<Step>, i: nat) returns (step: Step)
    requires Run(trace, steps) && i < |trace| && trace[i].mutex.Some?
    ensures OwnerGoesOn(trace[i], trace[i].mutex.value, step)
  {
    hide Inv, Run, Enabled, Apply;
    var s := trace[i];
    RunInv(trace, steps, i);
    MutexOwner(s);
    match s.mutex.value
    case ByThread(t) => ReaderGoesOn(s, t); step := Read(t, Next(s.threads[t].pc));
    case ByInstaller => step := InstallerGoesOn(s);
    case ByTear => step := TearGoesOn(s);
  }

  // ---------------------------------------------------------------- taking a column family down

  lemma ResetOne(s: State)
    requires s.tear.Resetting? && s.tear.next < |s.threads|
    ensures var r, n := Apply(s, Family(ResetSlot)), s.tear.next;
      && r.tear == Resetting(s.tear.sv, n + 1) && |r.threads| == |s.threads| && !r.threads[n].slot.Cached?
      && r.threads == s.threads[n := r.threads[n]] && r.threads[n].pc == s.threads[n].pc
  {
  }

  predicate Families(path: seq<Step>) {
    forall i :: 0 <= i < |path| ==> path[i].Family?
  }

  lemma {:induction false} ResetsAll(s: State) returns (path: seq<Step>, r: State)
    requires s.tear.Resetting?
    ensures Leads(s, path, r) && Families(path) && |r.threads| == |s.threads|
    ensures r.tear.Resetting? && r.tear.sv == s.tear.sv && r.tear.next >= |r.threads|
    ensures forall t: nat :: t < |s.threads| ==>
      r.threads[t].pc == s.threads[t].pc && (t >= s.tear.next ==> !r.threads[t].slot.Cached?)
      && (t < s.tear.next ==> r.threads[t] == s.threads[t])
    decreases |s.threads| - s.tear.next
  {
    hide Leads, Apply;
    if s.tear.next < |s.threads| {
      var m := Apply(s, Family(ResetSlot));
      ResetOne(s);
      OneStep(s, Family(ResetSlot));
      var more;
      more, r := ResetsAll(m);
      LeadsThen(s, [Family(ResetSlot)], m, more, r);
      path := [Family(ResetSlot)] + more;
    } else {
      Stay(s);
      path, r := [], s;
    }
  }

  /** Once super_version_ is null the slots are emptied, its reference is dropped and the mutex given back. */
  lemma TearEnds(trace: seq<State>, steps: seq<Step>, i: nat) returns (path: seq<Step>, r: State)
    requires Run(trace, steps) && i < |trace| && trace[i].tear.Resetting? && trace[i].tear.next == 0
    ensures Leads(trace[i], path, r) && Families(path) && r.tear.NoTear? && r.mutex.None?
    ensures |r.threads| == |trace[i].threads|
    ensures forall t: nat :: t < |r.threads| ==>
      r.threads[t].pc == trace[i].threads[t].pc && !r.threads[t].slot.Cached?
  {
    hide Leads, Inv, Run;
    var s := trace[i];
    RunInv(trace, steps, i);
    var m;
    path, m := ResetsAll(s);
    Follow(s, path, m, Family(DropCurrent));
    path, r := path + [Family(DropCurrent)], Apply(m, Family(DropCurrent));
    if r.tear.TearLast? {
      LeadsInv(s, path, r);
      CleansCurrent(r);
      Follow(s, path, r, Family(CleanCurrent));
      path, r := path + [Family(CleanCurrent)], Apply(r, Family(CleanCurrent));
    }
  }

  // ---------------------------------------------------------------- explicit references

  /** d more references to v, and nothing else about SuperVersions. */
  predicate Counted(s: State, r: State, v: nat, d: int) {
    v < |s.svs| && r.svs == s.svs[v := s.svs[v].(refs := s.svs[v].refs + d)]
  }

  /** A pin, possible at any time, is one more reference to what a reader has or what is pinned already. */
  lemma PinsCount(trace: seq<State>, steps: seq<Step>, i: nat, p: PinOp, v: nat)
    requires Run(trace, steps) && i < |trace|
    requires match p
             case PinBorrowed(t) => t < |trace[i].threads| && trace[i].threads[t].pc == Borrowing(v)
             case PinCurrent => trace[i].mutex.None? && trace[i].current == Some(v)
             case PinAgain(u) => v == u && v in trace[i].pins
             case _ => false
    ensures Enabled(trace[i], Pin(p))
    ensures var r := Apply(trace[i], Pin(p)); r.pins == trace[i].pins + multiset{v} && Counted(trace[i], r, v, 1)
  {
    hide Inv;
    RunInv(trace, steps, i);
    if p.PinBorrowed? { OwnedIsLive(trace[i], p.t, v); } else { OtherIsLive(trace[i], v); }
  }

  lemma OtherIsLive(s: State, v: nat)
    requires Inv(s) && (s.current == Some(v) || v in s.pins)
    ensures v < |s.svs| && s.svs[v].refs > 0 && s.svs[v].cleanups == 0
  {
    HeldIsLive(s, v);
  }

  /** Giving a pin back, possible at any time, is one less; whoever gives back the last reference owes the Cleanup. */
  lemma UnpinsCount(trace: seq<State>, steps: seq<Step>, i: nat, v: nat)
    requires Run(trace, steps) && i < |trace| && v in trace[i].pins
    ensures Enabled(trace[i], Pin(Unpin(v)))
    ensures var s, r := trace[i], Apply(trace[i], Pin(Unpin(v)));
      && r.pins == s.pins - multiset{v} && Counted(s, r, v, -1)
      && r.cleaners == s.cleaners + if s.svs[v].refs == 1 then multiset{v} else multiset{}
  {
    hide Inv;
    RunInv(trace, steps, i);
    OtherIsLive(trace[i], v);
  }

  /** Whoever owes a Cleanup can run it when the mutex is free, and it is the one Cleanup there is. */
  lemma CleansPinned(trace: seq<State>, steps: seq<Step>, i: nat, v: nat)
    requires Run(trace, steps) && i < |trace| && v in trace[i].cleaners && trace[i].mutex.None?
    ensures Enabled(trace[i], Pin(CleanPinned(v)))
    ensures var s, r := trace[i], Apply(trace[i], Pin(CleanPinned(v)));
      r.cleaners == s.cleaners - multiset{v} && v < |s.svs| == |r.svs| && r.svs[v].cleanups == 1
  {
    RunInv(trace, steps, i);
    assert Balanced(trace[i], v);
  }

  /** An idle thread can exit at any time; it leaves nothing in its slot, and its reference is gone. */
  lemma ExitEmpties(trace: seq<State>, steps: seq<Step>, i: nat, t: nat, v: nat)
    requires Run(trace, steps) && i < |trace| && t < |trace[i].threads|
      && trace[i].threads[t] == Thread(Cached(v), Idle)
    ensures Enabled(trace[i], Read(t, ThreadExit))
    ensures var s, r := trace[i], Apply(trace[i], Read(t, ThreadExit));
      Counted(s, r, v, -1) && r.threads == s.threads[t := Thread(Obsolete, Idle)]
  {
    hide Inv;
    RunInv(trace, steps, i);
    CachedIsLive(trace[i], t);
  }

  /** Outside references to the column family come and go, the last one when no reader is under way. */
  lemma FamilyCounts(trace: seq<State>, steps: seq<Step>, i: nat)
    requires Run(trace, steps) && i < |trace| && trace[i].cfExternal > 0
    ensures Enabled(trace[i], Family(RefCf))
    ensures var r := Apply(trace[i], Family(RefCf));
      r.cfExternal == trace[i].cfExternal + 1 && r.cfRefs == trace[i].cfRefs + 1
    ensures trace[i].mutex.None? && (forall t: nat :: t < |trace[i].threads| ==> trace[i].threads[t].pc.Idle?) ==>
      && Enabled(trace[i], Family(DropCf)) && Apply(trace[i], Family(DropCf)).cfExternal == trace[i].cfExternal - 1
      && Apply(trace[i], Family(DropCf)).cfRefs == trace[i].cfRefs - 1
  {
  }

  lemma CachedIsLive(s: State, t: nat)
    requires Inv(s) && t < |s.threads| && s.threads[t].slot.Cached?
    ensures s.threads[t].slot.sv < |s.svs|
  {
    ThreadMember(s.threads, t, s.threads[t].slot.sv);
    HeldIsLive(s, s.threads[t].slot.sv);
  }
}
