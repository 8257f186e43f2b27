/**
 The invariant of the SuperVersion hand-off, and that every step keeps it: reference counts are the number of
 holders, and Cleanup is owed by exactly one party.
 */
module SuperVersionInvariant {
  import opened Basics
  import opened SuperVersionMachine

  // ---------------------------------------------------------------- counting references

  predicate Owns(pc: Pc, v: nat) {
    match pc
    case Swapped(ptr) => ptr == Some(v)
    case Stale(u) => u == v
    case Reffed(u) => u == v
    case Borrowing(u) => u == v
    case Returning(u) => u == v
    case _ => false
  }

  predicate MustClean(pc: Pc, v: nat) {
    match pc
    case StaleLast(u) => u == v
    case CleaningStale(u) => u == v
    case ReturnLast(u) => u == v
    case CleaningReturn(u) => u == v
    case _ => false
  }

  predicate HoldsMutex(pc: Pc) {
    pc.CleaningStale? || pc.Locked? || pc.Reffed? || pc.CleaningReturn?
  }

  function RefsOf(th: Thread, v: nat): nat {
    B(th.slot == Cached(v)) + B(Owns(th.pc, v))
  }

  /** References to v in thread-local slots and in the hands of readers. */
  function ThreadRefs(ths: seq<Thread>, v: nat): nat {
    if ths == [] then 0 else ThreadRefs(ths[..|ths| - 1], v) + RefsOf(ths[|ths| - 1], v)
  }

  /** Readers that dropped the last reference to v and have yet to run Cleanup. */
  function ThreadCleaners(ths: seq<Thread>, v: nat): nat {
    if ths == [] then 0 else ThreadCleaners(ths[..|ths| - 1], v) + B(MustClean(ths[|ths| - 1].pc, v))
  }

  function Uncleaned(svs: seq<Sv>): nat {
    if svs == [] then 0 else Uncleaned(svs[..|svs| - 1]) + B(svs[|svs| - 1].cleanups == 0)
  }

  /** References outside the threads: super_version_, the one being replaced or taken down, pins, scraped pointers. */
  function OtherRefs(s: State, v: nat): nat {
    B(s.current == Some(v)) + B(Replaced(s.inst) == Some(v)) + B(s.tear.Resetting? && s.tear.sv == v)
    + s.pins[v] + s.scraped[v]
  }

  /** All the references to v there are. */
  function Holders(s: State, v: nat): nat {
    OtherRefs(s, v) + ThreadRefs(s.threads, v)
  }

  function OtherCleaners(s: State, v: nat): nat {
    s.cleaners[v] + B(s.inst == CleaningOld(v)) + B(s.tear == TearLast(v))
  }

  /** All the parties that owe v a Cleanup. */
  function Cleaners(s: State, v: nat): nat {
    OtherCleaners(s, v) + ThreadCleaners(s.threads, v)
  }

  lemma {:induction false} ThreadUpdate(ths: seq<Thread>, t: nat, th: Thread, v: nat)
    requires t < |ths|
    ensures ThreadRefs(ths[t := th], v) == ThreadRefs(ths, v) - RefsOf(ths[t], v) + RefsOf(th, v)
    ensures ThreadCleaners(ths[t := th], v)
         == ThreadCleaners(ths, v) - B(MustClean(ths[t].pc, v)) + B(MustClean(th.pc, v))
  {
    var m := |ths| - 1;
    if t == m {
      assert ths[t := th][..m] == ths[..m];
    } else {
      assert ths[t := th][..m] == ths[..m][t := th];
      ThreadUpdate(ths[..m], t, th, v);
    }
  }

  lemma {:induction false} ThreadMember(ths: seq<Thread>, t: nat, v: nat)
    requires t < |ths|
    ensures ThreadRefs(ths, v) >= RefsOf(ths[t], v)
    ensures ThreadCleaners(ths, v) >= B(MustClean(ths[t].pc, v))
  {
    var m := |ths| - 1;
    if t < m { ThreadMember(ths[..m], t, v); }
  }

  lemma {:induction false} UncleanedUpdate(svs: seq<Sv>, v: nat, x: Sv)
    requires v < |svs|
    ensures Uncleaned(svs[v := x]) == Uncleaned(svs) - B(svs[v].cleanups == 0) + B(x.cleanups == 0)
  {
    var m := |svs| - 1;
    if v == m {
      assert svs[v := x][..m] == svs[..m];
    } else {
      assert svs[v := x][..m] == svs[..m][v := x];
      UncleanedUpdate(svs[..m], v, x);
    }
  }

  /** Two SuperVersions not yet cleaned up count for two. */
  lemma UncleanedMembers(svs: seq<Sv>, u: nat, v: nat)
    requires u < |svs| && v < |svs| && svs[u].cleanups == 0 && svs[v].cleanups == 0
    ensures Uncleaned(svs) >= 1
    ensures u != v ==> Uncleaned(svs) >= 2
  {
    var x := svs[u].(cleanups := 1);
    UncleanedUpdate(svs, u, x);
    if u != v {
      UncleanedUpdate(svs[u := x], v, svs[v].(cleanups := 1));
    }
  }

  // ---------------------------------------------------------------- the invariant

  predicate Unscraped(inst: Installer, t: nat) {
    inst.Published? || inst.Numbered? || (inst.Scraping? && t >= inst.next)
  }

  /** v is the current SuperVersion, or the one being replaced or taken down and t's slot has yet to be emptied. */
  predicate Fresh(s: State, t: nat, v: nat) {
    || s.current == Some(v) || (Replaced(s.inst) == Some(v) && Unscraped(s.inst, t))
    || (s.tear.Resetting? && s.tear.sv == v && t >= s.tear.next)
  }

  predicate ThreadOk(s: State, t: nat, th: Thread) {
    && (th.slot.InUse? ==> InFlight(th.pc))
    && (th.slot.Cached? ==> !InFlight(th.pc) && Fresh(s, t, th.slot.sv))
    && (th.slot.InUse? && th.pc.Swapped? && th.pc.ptr.Some? ==> Fresh(s, t, th.pc.ptr.value))
    && (th.slot.InUse? && (th.pc.Borrowing? || th.pc.Reffed?) ==> Fresh(s, t, th.pc.sv))
    && (HoldsMutex(th.pc) <==> s.mutex == Some(ByThread(t)))
    && (InFlight(th.pc) ==> s.cfExternal > 0 && s.current.Some?)
  }

  ghost predicate ThreadsOk(s: State) {
    forall t: nat {:trigger s.threads[t]} :: t < |s.threads| ==> ThreadOk(s, t, s.threads[t])
  }

  function RefCount(s: State, v: nat): int {
    if v < |s.svs| then s.svs[v].refs else 0
  }

  function CleanupCount(s: State, v: nat): nat {
    if v < |s.svs| then s.svs[v].cleanups else 0
  }

  /** The count is exact; and v is referenced, or exactly one party owes it a Cleanup, or it has had
      its one Cleanup. */
  predicate Balanced(s: State, v: nat) {
    && RefCount(s, v) == Holders(s, v)
    && B(RefCount(s, v) > 0) + Cleaners(s, v) + CleanupCount(s, v) == B(v < |s.svs|)
  }

  ghost predicate RefsOk(s: State) {
    forall v: nat :: Balanced(s, v)
  }

  predicate InstallerOk(s: State) {
    && (s.inst.Off? <==> s.mutex != Some(ByInstaller))
    && (!s.inst.Off? ==> s.cfExternal > 0 && s.current.Some? && RefCount(s, s.current.value) == 1)
    && (!s.inst.Unreffing? && !s.inst.Scraping? ==> s.scraped == multiset{})
    && (s.current.Some? ==> s.current.value == |s.svs| - 1)
    && (Replaced(s.inst).Some? ==> s.current != Replaced(s.inst))
    && (forall v :: v in s.scraped ==> Replaced(s.inst) == Some(v))
    && (s.mutex.Some? && s.mutex.value.ByThread? ==> s.mutex.value.t < |s.threads|)
  }

  /** super_version_ is taken down under the mutex, once nobody outside holds the column family. */
  predicate TearOk(s: State) {
    && (s.tear.NoTear? <==> s.mutex != Some(ByTear))
    && (!s.tear.NoTear? ==> s.cfExternal == 0 && s.current.None? && s.tear.sv == |s.svs| - 1)
  }

  /** Versions count the installs. */
  predicate NumbersOk(s: State) {
    && s.number + B(s.inst.Published?) == |s.svs|
    && (forall v: nat :: v < |s.svs| ==>
          s.svs[v].version == v + 1 || (v == |s.svs| - 1 && (s.inst.Published? || s.inst.Numbered?)))
  }

  /** The column family's count, when `due` of its references are about to be dropped. */
  predicate CfOk(s: State, due: nat) {
    && s.cfRefs == s.cfExternal + Uncleaned(s.svs) + due
    && s.cfDeleted == B(s.cfRefs == 0)
  }

  ghost predicate Core(s: State) {
    ThreadsOk(s) && RefsOk(s) && InstallerOk(s) && TearOk(s) && NumbersOk(s)
  }

  /** Nothing is leaked: a column family with no outside reference and a current SuperVersion
      is being kept by some other SuperVersion. */
  predicate NoLeak(s: State) {
    s.cfExternal == 0 && s.current.Some? ==> s.cfRefs >= 2
  }

  ghost predicate Inv(s: State) {
    Core(s) && CfOk(s, 0) && NoLeak(s)
  }

  ghost predicate Init(s: State) {
    && s.svs == [] && s.current.None? && s.number == 0
    && (forall t :: 0 <= t < |s.threads| ==> s.threads[t] == Thread(Obsolete, Idle))
    && s.pins == multiset{} && s.cleaners == multiset{} && s.scraped == multiset{}
    && s.mutex.None? && s.inst.Off? && s.tear.NoTear? && s.cfExternal == 1 && s.cfRefs == 1 && s.cfDeleted == 0
  }

  lemma {:induction false} NoThreadRefs(ths: seq<Thread>, v: nat)
    requires forall t :: 0 <= t < |ths| ==> ths[t] == Thread(Obsolete, Idle)
    ensures ThreadRefs(ths, v) == 0 && ThreadCleaners(ths, v) == 0
  {
    if ths != [] { NoThreadRefs(ths[..|ths| - 1], v); }
  }

  lemma InitInv(s: State)
    requires Init(s)
    ensures Inv(s)
  {
    forall v: nat ensures Balanced(s, v) { NoThreadRefs(s.threads, v); }
  }

  // ---------------------------------------------------------------- steps keep the invariant

  /** The books on v stay balanced when a thread goes from `was` to `now` and the rest of s becomes r. */
  predicate Shift(s: State, r: State, was: Thread, now: Thread, v: nat) {
    && RefCount(r, v) - OtherRefs(r, v) - RefsOf(now, v) == RefCount(s, v) - OtherRefs(s, v) - RefsOf(was, v)
    && B(RefCount(r, v) > 0) + OtherCleaners(r, v) + B(MustClean(now.pc, v)) + CleanupCount(r, v) - B(v < |r.svs|)
       == B(RefCount(s, v) > 0) + OtherCleaners(s, v) + B(MustClean(was.pc, v)) + CleanupCount(s, v) - B(v < |s.svs|)
  }

  lemma RefsAfter(s: State, r: State, t: nat, th: Thread)
    requires RefsOk(s) && t < |s.threads| && r.threads == s.threads[t := th]
    requires forall v: nat :: Shift(s, r, s.threads[t], th, v)
    ensures RefsOk(r)
  {
    forall v: nat ensures Balanced(r, v) {
      assert Balanced(s, v) && Shift(s, r, s.threads[t], th, v);
      ThreadUpdate(s.threads, t, th, v);
    }
  }

  /** What the other threads' conditions depend on. */
  predicate SameShared(s: State, r: State) {
    && r.inst == s.inst && r.tear == s.tear && r.current == s.current && r.mutex == s.mutex
    && r.cfExternal == s.cfExternal
  }

  lemma ThreadsAfter(s: State, r: State, t: nat, th: Thread)
    requires ThreadsOk(s) && t < |s.threads| && r.threads == s.threads[t := th] && SameShared(s, r)
    requires ThreadOk(s, t, s.threads[t]) ==> ThreadOk(r, t, th)
    ensures ThreadsOk(r)
  {
    assert ThreadOk(s, t, s.threads[t]);
  }

  /** Changing the references to v changes its count and nothing else that the invariant speaks of. */
  lemma RefsChange(s: State, v: nat, d: int)
    requires v < |s.svs|
    ensures var r := AddRefs(s, v, d);
      && |r.svs| == |s.svs| && Uncleaned(r.svs) == Uncleaned(s.svs)
      && (forall u: nat :: RefCount(r, u) == RefCount(s, u) + if u == v then d else 0)
      && (forall u: nat :: CleanupCount(r, u) == CleanupCount(s, u))
      && (NumbersOk(s) ==> NumbersOk(r))
  {
    UncleanedUpdate(s.svs, v, s.svs[v].(refs := s.svs[v].refs + d));
  }

  /** Whoever holds a reference to v holds a SuperVersion that has not been cleaned up. */
  lemma HeldIsLive(s: State, v: nat)
    requires RefsOk(s) && Holders(s, v) > 0
    ensures v < |s.svs| && s.svs[v].refs > 0 && s.svs[v].cleanups == 0 && Cleaners(s, v) == 0
  {
    assert Balanced(s, v);
  }

  /** During an install only super_version_ refers to the new SuperVersion. */
  lemma NewIsUnshared(s: State, v: nat)
    requires RefsOk(s) && InstallerOk(s) && !s.inst.Off?
    requires s.pins[v] + s.scraped[v] + B(Replaced(s.inst) == Some(v)) + ThreadRefs(s.threads, v) > 0
    ensures s.current != Some(v)
  {
    assert Balanced(s, v);
  }

  lemma SwapStep(s: State, t: nat)
    requires Inv(s) && t < |s.threads| && s.threads[t].pc.Idle? && s.cfExternal > 0 && s.current.Some?
    ensures Inv(DoSwap(s, t))
  {
    var r := DoSwap(s, t);
    RefsAfter(s, r, t, r.threads[t]);
    ThreadsAfter(s, r, t, r.threads[t]);
  }

  lemma CheckStep(s: State, t: nat)
    requires Inv(s) && t < |s.threads| && s.threads[t].pc.Swapped?
    ensures Inv(DoCheck(s, t))
  {
    var r := DoCheck(s, t);
    RefsAfter(s, r, t, r.threads[t]);
    ThreadsAfter(s, r, t, r.threads[t]);
  }

  /** Thread t has dropped the reference it owned. */
  ghost predicate Dropped(s: State, r: State, t: nat, last: Pc, notLast: Pc)
    requires t < |s.threads| && (s.threads[t].pc.Stale? || s.threads[t].pc.Returning?)
  {
    var v := s.threads[t].pc.sv;
    var s1 := AddRefs(s, v, -1);
    && r == SetPc(s1, t, if Dead(s1, v) then last else notLast)
    && (s.threads[t].pc.Stale? ==> last == StaleLast(v) && notLast == Waiting)
    && (s.threads[t].pc.Returning? ==> last == ReturnLast(v) && notLast == Idle)
  }

  lemma UnrefBooks(s: State, r: State, t: nat, last: Pc, notLast: Pc)
    requires RefsOk(s) && t < |s.threads| && (s.threads[t].pc.Stale? || s.threads[t].pc.Returning?)
    requires Dropped(s, r, t, last, notLast)
    ensures RefsOk(r) && s.threads[t].pc.sv < |s.svs|
  {
    var v := s.threads[t].pc.sv;
    ThreadMember(s.threads, t, v);
    HeldIsLive(s, v);
    RefsChange(s, v, -1);
    RefsAfter(s, r, t, r.threads[t]);
  }

  lemma UnrefOwned(s: State, r: State, t: nat, last: Pc, notLast: Pc)
    requires Inv(s) && t < |s.threads| && (s.threads[t].pc.Stale? || s.threads[t].pc.Returning?)
    requires Dropped(s, r, t, last, notLast)
    ensures Inv(r)
  {
    var v := s.threads[t].pc.sv;
    UnrefBooks(s, r, t, last, notLast);
    ThreadMember(s.threads, t, v);
    RefsChange(s, v, -1);
    if !s.inst.Off? { NewIsUnshared(s, v); }
    ThreadsAfter(s, r, t, r.threads[t]);
  }

  lemma LockStep(s: State, t: nat)
    requires Inv(s) && t < |s.threads| && s.mutex.None? && (s.threads[t].pc.StaleLast? || s.threads[t].pc.Waiting?)
    ensures Inv(DoLock(s, t))
  {
    var r := DoLock(s, t);
    RefsAfter(s, r, t, r.threads[t]);
  }

  lemma UnlockStep(s: State, t: nat)
    requires Inv(s) && t < |s.threads| && s.threads[t].pc.Reffed?
    ensures Inv(DoUnlock(s, t))
  {
    var r := DoUnlock(s, t);
    RefsAfter(s, r, t, r.threads[t]);
  }

  lemma LockReturnStep(s: State, t: nat)
    requires Inv(s) && t < |s.threads| && s.mutex.None? && s.threads[t].pc.ReturnLast?
    ensures Inv(DoLockReturn(s, t))
  {
    var r := DoLockReturn(s, t);
    RefsAfter(s, r, t, r.threads[t]);
  }

  lemma RefCurrentStep(s: State, t: nat)
    requires Inv(s) && t < |s.threads| && s.threads[t].pc.Locked?
    ensures Inv(DoRefCurrent(s, t))
  {
    var r := DoRefCurrent(s, t);
    assert ThreadOk(s, t, s.threads[t]);
    HeldIsLive(s, s.current.value);
    RefsChange(s, s.current.value, 1);
    RefsAfter(s, r, t, r.threads[t]);
    ThreadsAfter(s, r, t, r.threads[t]);
  }

  lemma ReturnStep(s: State, t: nat)
    requires Inv(s) && t < |s.threads| && s.threads[t].pc.Borrowing?
    ensures Inv(DoReturn(s, t))
  {
    var r := DoReturn(s, t);
    assert ThreadOk(s, t, s.threads[t]);
    RefsAfter(s, r, t, r.threads[t]);
    ThreadsAfter(s, r, t, r.threads[t]);
  }

  const NOBODY := Thread(Obsolete, Idle)

  /** As RefsAfter, for steps that leave the threads alone. */
  lemma RefsSame(s: State, r: State)
    requires RefsOk(s) && r.threads == s.threads
    requires forall v: nat :: Shift(s, r, NOBODY, NOBODY, v)
    ensures RefsOk(r)
  {
    forall v: nat ensures Balanced(r, v) {
      assert Balanced(s, v) && Shift(s, r, NOBODY, NOBODY, v);
    }
  }

  /** The parts of the invariant that do not count references, when v's count goes from s to r. */
  lemma RestSame(s: State, r: State, v: nat, d: int)
    requires Inv(s) && v < |s.svs| && SameShared(s, r)
    requires r == AddRefs(s, v, d).(pins := r.pins, cleaners := r.cleaners)
    requires !s.inst.Off? ==> s.current != Some(v)
    requires RefsOk(r)
    ensures Inv(r)
  {
    RefsChange(s, v, d);
  }

  lemma ThreadExitStep(s: State, t: nat)
    requires Inv(s) && t < |s.threads| && s.threads[t].pc.Idle? && s.threads[t].slot.Cached?
    ensures Inv(DoThreadExit(s, t))
    ensures s.threads[t].slot.sv < |s.svs| && s.svs[s.threads[t].slot.sv].refs >= 2  // never the last reference
  {
    var r := DoThreadExit(s, t);
    var v := s.threads[t].slot.sv;
    ThreadMember(s.threads, t, v);
    HeldIsLive(s, v);
    assert ThreadOk(s, t, s.threads[t]) && Balanced(s, v);
    RefsChange(SetSlot(s, t, Obsolete), v, -1);
    if !s.inst.Off? { NewIsUnshared(s, v); }
    RefsAfter(s, r, t, r.threads[t]);
    ThreadsAfter(s, r, t, r.threads[t]);
  }

  /** Whoever pins v has it already, or takes it from super_version_ under the mutex. */
  lemma PinBooks(s: State, v: nat)
    requires RefsOk(s) && Holders(s, v) > 0
    ensures v < |s.svs| && RefsOk(DoPin(s, v))
  {
    hide RefsOk, NumbersOk, Uncleaned, Balanced, ThreadRefs, ThreadCleaners;
    HeldIsLive(s, v);
    RefsChange(s, v, 1);
    RefsSame(s, DoPin(s, v));
  }

  lemma PinStep(s: State, v: nat)
    requires Inv(s) && Holders(s, v) > 0
    requires s.inst.Off? || Holders(s, v) > B(s.current == Some(v))
    ensures Inv(DoPin(s, v))
  {
    PinBooks(s, v);
    assert Balanced(s, v);
    RestSame(s, DoPin(s, v), v, 1);
  }

  lemma OneLess(m: multiset<nat>, v: nat, u: nat)
    requires v in m
    ensures (m - multiset{v})[u] == m[u] - B(u == v)
  {
  }

  lemma OneMore(m: multiset<nat>, v: nat, u: nat)
    ensures (m + multiset{v})[u] == m[u] + B(u == v)
  {
  }

  /** What giving a pin back does to u's books. */
  lemma UnpinChanges(s: State, v: nat, u: nat)
    requires v < |s.svs| && v in s.pins
    ensures var r, last := DoUnpin(s, v), u == v && s.svs[v].refs == 1;
      && RefCount(r, u) == RefCount(s, u) - B(u == v) && OtherRefs(r, u) == OtherRefs(s, u) - B(u == v)
      && OtherCleaners(r, u) == OtherCleaners(s, u) + B(last) && CleanupCount(r, u) == CleanupCount(s, u)
      && |r.svs| == |s.svs|
  {
    OneLess(s.pins, v, u);
    OneMore(s.cleaners, v, u);
  }

  lemma UnpinShift(s: State, v: nat, u: nat)
    requires v < |s.svs| && s.svs[v].refs > 0 && v in s.pins
    ensures Shift(s, DoUnpin(s, v), NOBODY, NOBODY, u)
  {
    hide DoUnpin, OtherRefs, OtherCleaners;
    UnpinChanges(s, v, u);
  }

  lemma UnpinBooks(s: State, v: nat)
    requires RefsOk(s) && v in s.pins
    ensures RefsOk(DoUnpin(s, v)) && v < |s.svs|
  {
    hide RefsOk, Balanced, Shift, ThreadRefs, ThreadCleaners;
    HeldIsLive(s, v);
    forall u: nat ensures Shift(s, DoUnpin(s, v), NOBODY, NOBODY, u) { UnpinShift(s, v, u); }
    RefsSame(s, DoUnpin(s, v));
  }

  lemma UnpinStep(s: State, v: nat)
    requires Inv(s) && v in s.pins
    ensures Inv(DoUnpin(s, v))
  {
    UnpinBooks(s, v);
    if !s.inst.Off? { NewIsUnshared(s, v); }
    RestSame(s, DoUnpin(s, v), v, -1);
  }

  lemma BeginInstallStep(s: State)
    requires Inv(s) && s.mutex.None? && s.cfExternal > 0
    ensures Inv(DoBeginInstall(s))
  {
    var r := DoBeginInstall(s);
    assert r.svs[..|s.svs|] == s.svs;
    assert Balanced(s, |s.svs|);
    if s.current.Some? { HeldIsLive(s, s.current.value); }
    RefsSame(s, r);
  }

  lemma BumpNumberStep(s: State)
    requires Inv(s) && s.inst.Published?
    ensures Inv(DoBumpNumber(s))
  {
    RefsSame(s, DoBumpNumber(s));
  }

  lemma StampStep(s: State)
    requires Inv(s) && s.inst.Numbered?
    ensures Inv(DoStamp(s))
  {
    var v := s.current.value;
    UncleanedUpdate(s.svs, v, s.svs[v].(version := s.number));
    RefsSame(s, DoStamp(s));
  }

  lemma ScrapeNextShift(s: State, v: nat)
    requires s.inst.Scraping? && s.inst.next < |s.threads|
    ensures var n := s.inst.next; Shift(s, DoScrapeNext(s), s.threads[n], DoScrapeNext(s).threads[n], v)
  {
  }

  lemma ScrapeNextBooks(s: State)
    requires RefsOk(s) && s.inst.Scraping? && s.inst.next < |s.threads|
    ensures RefsOk(DoScrapeNext(s))
  {
    hide RefsOk, Shift;
    var r, n := DoScrapeNext(s), s.inst.next;
    forall v: nat ensures Shift(s, r, s.threads[n], r.threads[n], v) { ScrapeNextShift(s, v); }
    RefsAfter(s, r, n, r.threads[n]);
  }

  lemma ScrapeNextStep(s: State)
    requires Inv(s) && s.inst.Scraping? && s.inst.next < |s.threads|
    ensures Inv(DoScrapeNext(s))
  {
    var r, n := DoScrapeNext(s), s.inst.next;
    assert ThreadOk(s, n, s.threads[n]) && Balanced(s, s.current.value);
    ThreadMember(s.threads, n, s.current.value);
    ScrapeNextBooks(s);
  }

  lemma ScrapeDoneStep(s: State)
    requires Inv(s) && s.inst.Scraping? && s.inst.next >= |s.threads|
    ensures Inv(DoScrapeDone(s))
  {
    RefsSame(s, DoScrapeDone(s));
  }

  lemma UnrefScrapedStep(s: State, v: nat)
    requires Inv(s) && s.inst.Unreffing? && v in s.scraped
    ensures Inv(DoUnrefScraped(s, v))
    ensures v < |s.svs| && s.svs[v].refs >= 2  // never the last reference
  {
    assert Balanced(s, v);
    HeldIsLive(s, v);
    NewIsUnshared(s, v);
    RefsChange(s, v, -1);
    RefsSame(s, DoUnrefScraped(s, v));
  }

  lemma DropOldStep(s: State)
    requires Inv(s) && s.inst.Unreffing? && s.scraped == multiset{}
    ensures Inv(DoDropOld(s))
  {
    var v := s.inst.prev;
    HeldIsLive(s, v);
    RefsChange(s, v, -1);
    NewIsUnshared(s, v);
    RefsSame(s, DoDropOld(s));
  }

  // ---------------------------------------------------------------- Cleanup and the column family

  /** s with v marked as cleaned up. */
  function Marked(s: State, v: nat): State
    requires v < |s.svs|
  {
    s.(svs := s.svs[v := s.svs[v].(cleanups := s.svs[v].cleanups + 1)])
  }

  lemma UnrefCfKeeps(s: State)
    requires Core(s) && CfOk(s, 1) && (s.mutex.None? || s.cfExternal > 0)
    ensures Inv(UnrefCf(s))
  {
    if s.current.Some? {
      HeldIsLive(s, s.current.value);
      UncleanedMembers(s.svs, s.current.value, s.current.value);
    }
    RefsSame(s, UnrefCf(s));
  }

  lemma ResetSlotStep(s: State)
    requires Inv(s) && s.tear.Resetting? && s.tear.next < |s.threads|
    ensures Inv(DoResetSlot(s))
    ensures s.threads[s.tear.next].slot.Cached? ==>
      var v := s.threads[s.tear.next].slot.sv; v < |s.svs| && s.svs[v].refs >= 2  // never the last reference
  {
    var r, n := DoResetSlot(s), s.tear.next;
    assert ThreadOk(s, n, s.threads[n]);
    if s.threads[n].slot.Cached? {
      var v := s.threads[n].slot.sv;
      ThreadMember(s.threads, n, v);
      HeldIsLive(s, v);
      assert Balanced(s, v);
      RefsChange(s, v, -1);
    }
    RefsAfter(s, r, n, r.threads[n]);
  }

  lemma DropCurrentStep(s: State)
    requires Inv(s) && s.tear.Resetting? && s.tear.next >= |s.threads|
    ensures Inv(DoDropCurrent(s))
  {
    var v := s.tear.sv;
    HeldIsLive(s, v);
    RefsChange(s, v, -1);
    RefsSame(s, DoDropCurrent(s));
  }

  /** After v's Cleanup has been marked off in a state whose books are balanced again, its drop of the
      column family keeps the invariant. */
  lemma CleanupKeeps(s: State, v: nat)
    requires v < |s.svs| && s.svs[v].cleanups == 0 && Core(Marked(s, v)) && CfOk(s, 0)
    requires s.mutex.None? || s.cfExternal > 0
    ensures Inv(Cleanup(s, v))
  {
    hide Core, Inv, UnrefCf, Uncleaned;
    UncleanedUpdate(s.svs, v, Marked(s, v).svs[v]);
    UnrefCfKeeps(Marked(s, v));
  }

  lemma ThreadCleanupBooks(s: State, s1: State, t: nat, pc: Pc)
    requires RefsOk(s) && t < |s.threads| && (s.threads[t].pc.CleaningStale? || s.threads[t].pc.CleaningReturn?)
    requires (pc == Locked || pc == Idle) && s1 == SetPc(s, t, pc).(mutex := s1.mutex)
    ensures var v := s.threads[t].pc.sv; v < |s.svs| && s.svs[v].cleanups == 0 && RefsOk(Marked(s1, v))
  {
    var v := s.threads[t].pc.sv;
    assert Balanced(s, v);
    ThreadMember(s.threads, t, v);
    RefsAfter(s, Marked(s1, v), t, s1.threads[t]);
  }

  lemma CleanStaleStep(s: State, t: nat)
    requires Inv(s) && t < |s.threads| && s.threads[t].pc.CleaningStale?
    ensures Inv(DoCleanStale(s, t))
  {
    var s1 := SetPc(s, t, Locked);
    assert ThreadOk(s, t, s.threads[t]);
    ThreadCleanupBooks(s, s1, t, Locked);
    CleanupKeeps(s1, s.threads[t].pc.sv);
  }

  lemma CleanReturnStep(s: State, t: nat)
    requires Inv(s) && t < |s.threads| && s.threads[t].pc.CleaningReturn?
    ensures Inv(DoCleanReturn(s, t))
  {
    var s1 := SetPc(s, t, Idle).(mutex := None);
    assert ThreadOk(s, t, s.threads[t]);
    ThreadCleanupBooks(s, s1, t, Idle);
    CleanupKeeps(s1, s.threads[t].pc.sv);
  }

  lemma CleanPinnedStep(s: State, v: nat)
    requires Inv(s) && s.mutex.None? && v in s.cleaners
    ensures Inv(DoCleanPinned(s, v))
  {
    var s1 := s.(cleaners := s.cleaners - multiset{v});
    assert Balanced(s, v);
    RefsSame(s, Marked(s1, v));
    CleanupKeeps(s1, v);
  }

  lemma CleanOldStep(s: State)
    requires Inv(s) && s.inst.CleaningOld?
    ensures Inv(DoCleanOld(s))
  {
    var s1, v := s.(inst := Off, mutex := None), s.inst.prev;
    assert Balanced(s, v);
    RefsSame(s, Marked(s1, v));
    CleanupKeeps(s1, v);
  }

  lemma CleanCurrentStep(s: State)
    requires Inv(s) && s.tear.TearLast?
    ensures Inv(DoCleanCurrent(s))
  {
    var s1, v := s.(tear := NoTear, mutex := None), s.tear.sv;
    assert Balanced(s, v);
    RefsSame(s, Marked(s1, v));
    CleanupKeeps(s1, v);
  }

  lemma RefCfStep(s: State)
    requires Inv(s) && s.cfExternal > 0
    ensures Inv(DoRefCf(s))
  {
    RefsSame(s, DoRefCf(s));
  }

  lemma DropCfStep(s: State)
    requires Inv(s) && FamilyEnabled(s, DropCf)
    ensures Inv(DoDropCf(s))
  {
    var s1 := s.(cfExternal := s.cfExternal - 1);
    RefsSame(s, s1);
    UnrefCfKeeps(s1);
  }

  lemma ReadKeepsInv(s: State, t: nat, r: ReaderOp)
    requires Inv(s) && t < |s.threads| && ReadEnabled(s, s.threads[t], r)
    ensures Inv(ApplyRead(s, t, r))
  {
    match r
    case Swap => SwapStep(s, t);
    case Check => CheckStep(s, t);
    case UnrefStale => UnrefOwned(s, DoUnrefStale(s, t), t, StaleLast(s.threads[t].pc.sv), Waiting);
    case UnrefReturned => UnrefOwned(s, DoUnrefReturned(s, t), t, ReturnLast(s.threads[t].pc.sv), Idle);
    case Lock => LockStep(s, t);
    case Unlock => UnlockStep(s, t);
    case LockReturn => LockReturnStep(s, t);
    case CleanStale => CleanStaleStep(s, t);
    case CleanReturn => CleanReturnStep(s, t);
    case RefCurrent => RefCurrentStep(s, t);
    case Return => ReturnStep(s, t);
    case ThreadExit => ThreadExitStep(s, t);
  }

  lemma PinKeepsInv(s: State, p: PinOp)
    requires Inv(s) && PinEnabled(s, p)
    ensures Inv(ApplyPin(s, p))
  {
    match p
    case PinBorrowed(t) => ThreadMember(s.threads, t, s.threads[t].pc.sv); PinStep(s, s.threads[t].pc.sv);
    case PinCurrent => PinStep(s, s.current.value);
    case PinAgain(v) => PinStep(s, v);
    case Unpin(v) => UnpinStep(s, v);
    case CleanPinned(v) => CleanPinnedStep(s, v);
  }

  lemma InstallKeepsInv(s: State, i: InstallOp)
    requires Inv(s) && InstallEnabled(s, i)
    ensures Inv(ApplyInstall(s, i))
  {
    match i
    case BeginInstall => BeginInstallStep(s);
    case BumpNumber => BumpNumberStep(s);
    case Stamp => StampStep(s);
    case ScrapeNext => ScrapeNextStep(s);
    case ScrapeDone => ScrapeDoneStep(s);
    case UnrefScraped(v) => UnrefScrapedStep(s, v);
    case DropOld => DropOldStep(s);
    case CleanOld => CleanOldStep(s);
  }

  lemma FamilyKeepsInv(s: State, f: CfOp)
    requires Inv(s) && FamilyEnabled(s, f)
    ensures Inv(ApplyFamily(s, f))
  {
    match f
    case RefCf => RefCfStep(s);
    case DropCf => DropCfStep(s);
    case ResetSlot => ResetSlotStep(s);
    case DropCurrent => DropCurrentStep(s);
    case CleanCurrent => CleanCurrentStep(s);
  }

  lemma StepKeepsInv(s: State, step: Step)
    requires Inv(s) && Enabled(s, step)
    ensures Inv(Apply(s, step))
  {
    match step
    case Read(t, r) => ReadKeepsInv(s, t, r);
    case Pin(p) => PinKeepsInv(s, p);
    case Install(i) => InstallKeepsInv(s, i);
    case Family(f) => FamilyKeepsInv(s, f);
  }
}
