/** What holds on every run of the SuperVersion hand-off. */
module SuperVersionRuns {
  import opened Basics
  import opened SuperVersionMachine
  import opened SuperVersionInvariant

  /** trace is a run from an initial state that takes the given steps. */
  ghost predicate Run(trace: seq<State>, steps: seq<Step>) {
    && |trace| == |steps| + 1 && Init(trace[0])
    && forall i :: 0 <= i < |steps| ==> Enabled(trace[i], steps[i]) && trace[i + 1] == Apply(trace[i], steps[i])
  }

  lemma RunSize(trace: seq<State>, steps: seq<Step>)
    requires Run(trace, steps)
    ensures |trace| == |steps| + 1
  {
  }

  lemma RunStep(trace: seq<State>, steps: seq<Step>, i: nat)
    requires Run(trace, steps) && i < |steps|
    ensures Enabled(trace[i], steps[i]) && trace[i + 1] == Apply(trace[i], steps[i])
  {
  }

  lemma {:induction false} RunInv(trace: seq<State>, steps: seq<Step>, i: nat)
    requires Run(trace, steps) && i < |trace|
    ensures Inv(trace[i])
  {
    if i == 0 {
      InitInv(trace[0]);
    } else {
      RunInv(trace, steps, i - 1);
      StepKeepsInv(trace[i - 1], steps[i - 1]);
    }
  }

  /** In every state of every run, a SuperVersion's count is the number of its holders; no holder (reader,
      pin, cached slot) sees one that was cleaned up; and Cleanup runs at most once, and is owed by exactly
      one party from the moment the count reaches zero until it has run. */
  lemma CountsExactCleanupOnce(trace: seq<State>, steps: seq<Step>, i: nat, v: nat)
    requires Run(trace, steps) && i < |trace| && v < |trace[i].svs|
    ensures var s := trace[i];
      && s.svs[v].refs == Holders(s, v)
      && (s.svs[v].refs > 0 ==> s.svs[v].cleanups == 0 && Cleaners(s, v) == 0)
      && (s.svs[v].refs == 0 ==> s.svs[v].cleanups + Cleaners(s, v) == 1)
  {
    RunInv(trace, steps, i);
    assert Balanced(trace[i], v);
  }

  /** Some reader works with v, from the moment it has it until it gives it up, or a slot caches v, or v is pinned. */
  ghost predicate InHands(s: State, v: nat) {
    v in s.pins || exists t :: 0 <= t < |s.threads| && (Owns(s.threads[t].pc, v) || s.threads[t].slot == Cached(v))
  }

  /** What anybody works with is live. */
  lemma BorrowedIsLive(trace: seq<State>, steps: seq<Step>, i: nat, v: nat)
    requires Run(trace, steps) && i < |trace| && InHands(trace[i], v)
    ensures v < |trace[i].svs| && trace[i].svs[v].refs > 0 && trace[i].svs[v].cleanups == 0
  {
    var s := trace[i];
    RunInv(trace, steps, i);
    if v !in s.pins {
      var t :| 0 <= t < |s.threads| && (Owns(s.threads[t].pc, v) || s.threads[t].slot == Cached(v));
      ThreadMember(s.threads, t, v);
    }
    HeldIsLive(s, v);
  }

  lemma PinnedNotLast(s: State, t: nat, v: nat)
    requires Inv(s) && t < |s.threads| && s.threads[t].pc == Returning(v) && v in s.pins
    ensures v < |s.svs| && s.svs[v].refs >= 2
  {
    ThreadMember(s.threads, t, v);
    HeldIsLive(s, v);
    assert Balanced(s, v);
  }

  /** The scrape, a thread's exit, emptying the slots of a column family that goes and the failed return inside
      GetReferencedSuperVersion never drop a last reference, which none of them could clean up after. */
  lemma NeverTheLastReference(trace: seq<State>, steps: seq<Step>, i: nat, v: nat)
    requires Run(trace, steps) && i < |steps|
    requires match steps[i]
             case Install(UnrefScraped(u)) => v == u
             case Read(t, ThreadExit) => v == trace[i].threads[t].slot.sv
             case Read(t, UnrefReturned) => v == trace[i].threads[t].pc.sv && v in trace[i].pins
             case Family(ResetSlot) => trace[i].threads[trace[i].tear.next].slot == Cached(v)
             case _ => false
    ensures v < |trace[i + 1].svs| && trace[i + 1].svs[v].refs > 0
  {
    hide Inv, Cleanup, UnrefCf;
    var s := trace[i];
    RunInv(trace, steps, i);
    match steps[i] {
      case Install(UnrefScraped(u)) => UnrefScrapedStep(s, u);
      case Read(t, ThreadExit) => ThreadExitStep(s, t);
      case Read(t, UnrefReturned) => PinnedNotLast(s, t, v);
      case Family(ResetSlot) => ResetSlotStep(s);
      case _ => assert false;
    }
  }

  /** While no install is under way, a pointer in a thread-local slot is the current SuperVersion (the one that was
      current last, if it is being taken down), and it carries the current number. */
  lemma SlotsHoldCurrent(trace: seq<State>, steps: seq<Step>, i: nat, t: nat)
    requires Run(trace, steps) && i < |trace| && t < |trace[i].threads|
    requires trace[i].inst.Off? && trace[i].threads[t].slot.Cached?
    ensures var v := trace[i].threads[t].slot.sv;
      && (if trace[i].tear.NoTear? then trace[i].current == Some(v) else trace[i].tear.sv == v == |trace[i].svs| - 1)
      && v < |trace[i].svs| && trace[i].svs[v].version == trace[i].number
  {
    RunInv(trace, steps, i);
    assert ThreadOk(trace[i], t, trace[i].threads[t]);
  }

  // ---------------------------------------------------------------- freshness

  lemma CleanupKeepsPcs(s: State, v: nat)
    ensures |Cleanup(s, v).threads| == |s.threads|
    ensures forall u :: 0 <= u < |s.threads| ==> Cleanup(s, v).threads[u].pc == s.threads[u].pc
  {
  }

  /** Only thread t moves thread t. */
  lemma ReadKeepsOthers(s: State, u: nat, r: ReaderOp)
    requires u < |s.threads| && ReadEnabled(s, s.threads[u], r)
    ensures |ApplyRead(s, u, r).threads| == |s.threads|
    ensures forall t :: 0 <= t < |s.threads| && t != u ==> ApplyRead(s, u, r).threads[t].pc == s.threads[t].pc
  {
    hide Cleanup;
    match r
    case CleanStale => CleanupKeepsPcs(SetPc(s, u, Locked), s.threads[u].pc.sv);
    case CleanReturn => CleanupKeepsPcs(SetPc(s, u, Idle).(mutex := None), s.threads[u].pc.sv);
    case _ =>
  }

  ghost predicate SamePcs(s: State, r: State) {
    |r.threads| == |s.threads| && forall t :: 0 <= t < |s.threads| ==> r.threads[t].pc == s.threads[t].pc
  }

  lemma PinKeepsPcs(s: State, p: PinOp)
    requires PinEnabled(s, p)
    ensures SamePcs(s, ApplyPin(s, p))
  {
    hide Cleanup;
    if p.CleanPinned? { CleanupKeepsPcs(s.(cleaners := s.cleaners - multiset{p.v}), p.v); }
  }

  lemma ScrapeKeepsPcs(s: State)
    requires InstallEnabled(s, ScrapeNext)
    ensures SamePcs(s, DoScrapeNext(s))
  {
  }

  lemma InstallKeepsPcs(s: State, i: InstallOp)
    requires InstallEnabled(s, i)
    ensures SamePcs(s, ApplyInstall(s, i))
  {
    hide Cleanup, DoScrapeNext;
    if i.ScrapeNext? { ScrapeKeepsPcs(s); }
    if i.CleanOld? { CleanupKeepsPcs(s.(inst := Off, mutex := None), s.inst.prev); }
  }

  lemma FamilyKeepsPcs(s: State, f: CfOp)
    requires FamilyEnabled(s, f)
    ensures SamePcs(s, ApplyFamily(s, f))
  {
    hide Cleanup;
    if f.CleanCurrent? { CleanupKeepsPcs(s.(tear := NoTear, mutex := None), s.tear.sv); }
  }

  lemma OthersKeepPc(s: State, step: Step, t: nat)
    requires Enabled(s, step) && t < |s.threads|
    ensures t < |Apply(s, step).threads|
    ensures (step.Read? && step.t == t) || Apply(s, step).threads[t].pc == s.threads[t].pc
  {
    match step
    case Read(u, r) => ReadKeepsOthers(s, u, r);
    case Pin(p) => PinKeepsPcs(s, p);
    case Install(i) => InstallKeepsPcs(s, i);
    case Family(f) => FamilyKeepsPcs(s, f);
  }

  predicate Has(pc: Pc, v: nat) {
    pc == Reffed(v) || pc == Borrowing(v)
  }

  lemma CheckAcquires(s: State, t: nat, v: nat)
    requires Inv(s) && t < |s.threads| && s.threads[t].pc == Swapped(Some(v))
    requires v < |s.svs| && s.svs[v].version == s.number
    ensures s.number == v + 1
  {
    ThreadMember(s.threads, t, v);
    HeldIsLive(s, v);
    if !s.inst.Off? { NewIsUnshared(s, v); }
  }

  lemma RefCurrentAcquires(s: State, t: nat, v: nat)
    requires Inv(s) && t < |s.threads| && ReadEnabled(s, s.threads[t], RefCurrent) && s.current == Some(v)
    ensures s.number == v + 1
  {
    assert ThreadOk(s, t, s.threads[t]);
  }

  /** The instant at which a reader comes to have v, v's version is the current number. */
  lemma AcquiredCurrent(s: State, t: nat, r: ReaderOp, v: nat)
    requires Inv(s) && t < |s.threads| && ReadEnabled(s, s.threads[t], r)
    requires !Has(s.threads[t].pc, v)
    requires t < |ApplyRead(s, t, r).threads| && Has(ApplyRead(s, t, r).threads[t].pc, v)
    ensures ApplyRead(s, t, r).number == v + 1
  {
    hide Inv, Cleanup;
    match r
    case CleanStale => CleanupKeepsPcs(SetPc(s, t, Locked), s.threads[t].pc.sv);
    case CleanReturn => CleanupKeepsPcs(SetPc(s, t, Idle).(mutex := None), s.threads[t].pc.sv);
    case Check => CheckAcquires(s, t, v);
    case RefCurrent => RefCurrentAcquires(s, t, v);
    case _ =>
  }

  lemma SwapIsIdle(s: State, t: nat)
    requires Enabled(s, Read(t, Swap))
    ensures t < |s.threads| && s.threads[t].pc.Idle?
  {
  }

  lemma ReadIs(s: State, step: Step)
    requires Enabled(s, step) && step.Read?
    ensures step.t < |s.threads| && ReadEnabled(s, s.threads[step.t], step.r)
    ensures Apply(s, step) == ApplyRead(s, step.t, step.r)
  {
  }

  lemma {:induction false} FreshUpTo(trace: seq<State>, steps: seq<Step>, i: nat, j: nat, t: nat, v: nat)
    requires Run(trace, steps) && i < j < |trace| && t < |trace[i].threads|
    requires forall k :: i <= k <= j ==> t < |trace[k].threads|
    requires steps[i] == Read(t, Swap) && Has(trace[j].threads[t].pc, v)
    ensures exists k :: i < k <= j && trace[k].number == v + 1
    decreases j
  {
    hide Run, Inv, Apply, ApplyRead, Enabled, ReadEnabled;
    assert |trace| == |steps| + 1 by { RunSize(trace, steps); }
    var s := trace[j - 1];
    RunInv(trace, steps, j - 1);
    RunStep(trace, steps, i);
    SwapIsIdle(trace[i], t);
    if Has(s.threads[t].pc, v) {
      FreshUpTo(trace, steps, i, j - 1, t, v);
    } else {
      RunStep(trace, steps, j - 1);
      assert trace[j] == Apply(s, steps[j - 1]);
      OthersKeepPc(s, steps[j - 1], t);
      ReadIs(s, steps[j - 1]);
      AcquiredCurrent(s, t, steps[j - 1].r, v);
    }
  }

  lemma {:induction false} SameThreads(trace: seq<State>, steps: seq<Step>, i: nat, t: nat)
    requires Run(trace, steps) && i < |trace| && t < |trace[0].threads|
    ensures t < |trace[i].threads|
  {
    if i > 0 {
      SameThreads(trace, steps, i - 1, t);
      OthersKeepPc(trace[i - 1], steps[i - 1], t);
    }
  }

  /** Every GetThreadLocalSuperVersion (from its Swap at i until it has v at j) returns a SuperVersion whose
      version number was super_version_number_ at some instant of the call. */
  lemma GetIsFresh(trace: seq<State>, steps: seq<Step>, i: nat, j: nat, t: nat, v: nat)
    requires Run(trace, steps) && i < j < |trace| && t < |trace[0].threads|
    requires steps[i] == Read(t, Swap) && t < |trace[j].threads| && trace[j].threads[t].pc == Borrowing(v)
    ensures v < |trace[j].svs|
    ensures exists k :: i < k <= j && trace[k].number == trace[j].svs[v].version
  {
    forall k | i <= k <= j ensures t < |trace[k].threads| { SameThreads(trace, steps, k, t); }
    FreshUpTo(trace, steps, i, j, t, v);
    RunInv(trace, steps, j);
    var s := trace[j];
    ThreadMember(s.threads, t, v);
    HeldIsLive(s, v);
    if !s.inst.Off? { NewIsUnshared(s, v); }
    assert s.svs[v].version == v + 1;
  }

  // ---------------------------------------------------------------- the column family

  lemma {:induction false} UncleanedWitness(svs: seq<Sv>, v: nat) returns (u: nat)
    requires Uncleaned(svs) >= 1 + B(v < |svs| && svs[v].cleanups == 0)
    ensures u < |svs| && u != v && svs[u].cleanups == 0
  {
    var m := |svs| - 1;
    if svs[m].cleanups == 0 && m != v {
      u := m;
    } else {
      u := UncleanedWitness(svs[..m], v);
    }
  }

  /** A column family whose super_version_ is being taken down has a reference left. */
  lemma TearKeeps(s: State)
    requires Inv(s) && !s.tear.NoTear?
    ensures s.cfRefs > 0
  {
    assert Balanced(s, s.tear.sv);
    UncleanedMembers(s.svs, s.tear.sv, s.tear.sv);
  }

  /** The column family is deleted at most once, exactly when its count is zero, and then nothing refers
      to it: no super_version_, no SuperVersion that could still run Cleanup, no outside reference. */
  lemma CfDeletedOnce(trace: seq<State>, steps: seq<Step>, i: nat)
    requires Run(trace, steps) && i < |trace|
    ensures var s := trace[i];
      && s.cfDeleted <= 1 && (s.cfDeleted == 1 <==> s.cfRefs == 0) && s.cfRefs >= 0
      && (s.cfDeleted == 1 ==> s.current.None? && s.tear.NoTear? && s.cfExternal == 0)
      && (s.cfDeleted == 1 ==> forall v :: 0 <= v < |s.svs| ==> s.svs[v].cleanups == 1 && s.svs[v].refs == 0)
  {
    RunInv(trace, steps, i);
    var s := trace[i];
    if !s.tear.NoTear? { TearKeeps(s); }
    if s.cfDeleted == 1 {
      forall v | 0 <= v < |s.svs| ensures s.svs[v].cleanups == 1 && s.svs[v].refs == 0 {
        assert Balanced(s, v);
        if s.svs[v].cleanups == 0 { UncleanedMembers(s.svs, v, v); }
      }
    }
  }

  ghost predicate Quiet(s: State) {
    && s.pins == multiset{} && s.cleaners == multiset{} && s.tear.NoTear?
    && forall t :: 0 <= t < |s.threads| ==> s.threads[t].pc.Idle?
  }

  lemma {:induction false} QuietRefs(ths: seq<Thread>, u: nat)
    requires forall t :: 0 <= t < |ths| ==> ths[t].pc.Idle? && ths[t].slot != Cached(u)
    ensures ThreadRefs(ths, u) == 0 && ThreadCleaners(ths, u) == 0
  {
    if ths != [] { QuietRefs(ths[..|ths| - 1], u); }
  }

  /** Nothing leaks: once no outside reference, pin or reader is left, the column family is gone. */
  lemma QuietMeansDeleted(trace: seq<State>, steps: seq<Step>, i: nat)
    requires Run(trace, steps) && i < |trace| && trace[i].cfExternal == 0 && Quiet(trace[i])
    ensures trace[i].cfDeleted == 1
  {
    var s := trace[i];
    RunInv(trace, steps, i);
    if s.cfRefs != 0 {
      var v := if s.current.Some? then s.current.value else |s.svs|;
      var u := UncleanedWitness(s.svs, v);
      assert Balanced(s, u);
      forall t | 0 <= t < |s.threads| ensures s.threads[t].slot != Cached(u) {
        assert ThreadOk(s, t, s.threads[t]);
      }
      QuietRefs(s.threads, u);
      assert false;
    }
  }

  lemma {:induction false} NoOwners(ths: seq<Thread>, v: nat)
    requires forall t :: 0 <= t < |ths| ==> !ths[t].slot.Cached?
    ensures ThreadRefs(ths, v) == 0 <==> forall t :: 0 <= t < |ths| ==> !Owns(ths[t].pc, v)
  {
    if ths != [] {
      var m := |ths| - 1;
      NoOwners(ths[..m], v);
      assert forall t :: 0 <= t < m ==> ths[..m][t] == ths[t];
    }
  }

  ghost predicate KeptOutside(s: State, v: nat) {
    v in s.pins || exists t :: 0 <= t < |s.threads| && Owns(s.threads[t].pc, v)
  }

  /** super_version_ is null for good, and of all SuperVersions only v, the last one it pointed to, may still be
      uncleaned. */
  ghost predicate OnlyLeft(s: State, v: nat) {
    && s.cfExternal == 0 && s.current.None? && v < |s.svs| && (s.tear.NoTear? || s.tear.sv == v)
    && forall u :: 0 <= u < |s.svs| && u != v ==> s.svs[u].cleanups > 0
  }

  /** Cleanups are never taken back. */
  ghost predicate CleanedStay(s: State, r: State) {
    |r.svs| == |s.svs| && forall u :: 0 <= u < |s.svs| ==> r.svs[u].cleanups >= s.svs[u].cleanups
  }

  /** What a step does once super_version_ is null. */
  ghost predicate Late(s: State, r: State) {
    && r.current.None? && r.cfExternal == s.cfExternal && CleanedStay(s, r)
    && (r.tear.NoTear? || (!s.tear.NoTear? && r.tear.sv == s.tear.sv))
  }

  lemma LateCleanup(s: State, v: nat)
    requires s.current.None?
    ensures Late(s, Cleanup(s, v))
  {
  }

  lemma LateRead(s: State, t: nat, r: ReaderOp)
    requires t < |s.threads| && ReadEnabled(s, s.threads[t], r) && s.current.None?
    ensures Late(s, ApplyRead(s, t, r))
  {
    match r
    case CleanStale => LateCleanup(SetPc(s, t, Locked), s.threads[t].pc.sv);
    case CleanReturn => LateCleanup(SetPc(s, t, Idle).(mutex := None), s.threads[t].pc.sv);
    case _ =>
  }

  lemma LateCount(s: State, v: nat, d: int)
    requires s.current.None?
    ensures Late(s, AddRefs(s, v, d)) && AddRefs(s, v, d) == s.(svs := AddRefs(s, v, d).svs)
  {
  }

  lemma LatePin(s: State, p: PinOp)
    requires PinEnabled(s, p) && s.current.None?
    ensures Late(s, ApplyPin(s, p))
  {
    hide Cleanup, AddRefs;
    match p
    case CleanPinned(v) => LateCleanup(s.(cleaners := s.cleaners - multiset{v}), v);
    case Unpin(v) => LateCount(s, v, -1);
    case PinAgain(v) => LateCount(s, v, 1);
    case PinBorrowed(t) => LateCount(s, s.threads[t].pc.sv, 1);
    case PinCurrent =>
  }

  lemma LateFamily(s: State, f: CfOp)
    requires FamilyEnabled(s, f) && s.current.None? && s.cfExternal == 0
    ensures Late(s, ApplyFamily(s, f))
  {
    hide Cleanup;
    if f.CleanCurrent? { LateCleanup(s.(tear := NoTear, mutex := None), s.tear.sv); }
  }

  /** From then on nothing new comes up. */
  lemma OnlyLeftStays(s: State, step: Step, v: nat)
    requires Inv(s) && Enabled(s, step) && OnlyLeft(s, v)
    ensures OnlyLeft(Apply(s, step), v)
  {
    hide ApplyRead, ApplyPin, ApplyInstall, ApplyFamily, ReadEnabled, PinEnabled, FamilyEnabled;
    match step
    case Read(t, r) => LateRead(s, t, r);
    case Pin(p) => LatePin(s, p);
    case Install(i) => assert false;
    case Family(f) => LateFamily(s, f);
  }

  /** super_version_ becomes null only when nothing but it holds the column family. */
  ghost predicate Alone(s: State, r: State) {
    s.current.Some? && r.current.None? ==> r.cfRefs == 1 && r.tear == Resetting(s.current.value, 0)
  }

  lemma ReadAlone(s: State, t: nat, r: ReaderOp)
    requires t < |s.threads| && ReadEnabled(s, s.threads[t], r)
    ensures Alone(s, ApplyRead(s, t, r))
  {
  }

  lemma PinAlone(s: State, p: PinOp)
    requires PinEnabled(s, p)
    ensures Alone(s, ApplyPin(s, p))
  {
  }

  lemma InstallAlone(s: State, i: InstallOp)
    requires InstallEnabled(s, i)
    ensures Alone(s, ApplyInstall(s, i))
  {
  }

  lemma FamilyAlone(s: State, f: CfOp)
    requires FamilyEnabled(s, f)
    ensures Alone(s, ApplyFamily(s, f))
  {
  }

  lemma GoesAlone(s: State, step: Step)
    requires Enabled(s, step)
    ensures Alone(s, Apply(s, step))
  {
    hide ApplyRead, ApplyPin, ApplyInstall, ApplyFamily, ReadEnabled, PinEnabled, FamilyEnabled, InstallEnabled;
    match step
    case Read(t, r) => ReadAlone(s, t, r);
    case Pin(p) => PinAlone(s, p);
    case Install(i) => InstallAlone(s, i);
    case Family(f) => FamilyAlone(s, f);
  }

  lemma AloneLeaves(s: State)
    requires Inv(s) && s.tear.Resetting? && s.cfRefs == 1
    ensures OnlyLeft(s, s.tear.sv)
  {
    var v := s.tear.sv;
    HeldIsLive(s, v);
    forall u | 0 <= u < |s.svs| && u != v ensures s.svs[u].cleanups > 0 {
      if s.svs[u].cleanups == 0 { UncleanedMembers(s.svs, u, v); }
    }
  }

  /** Step i sets super_version_, which pointed to v, to null. */
  ghost predicate TakesDown(trace: seq<State>, i: nat, v: nat) {
    i + 1 < |trace| && trace[i].current == Some(v) && trace[i + 1].current.None?
  }

  /** Dropping an outside reference does so exactly when only super_version_ still holds the column family. */
  lemma DropTakesDown(trace: seq<State>, steps: seq<Step>, i: nat, v: nat)
    requires Run(trace, steps) && i < |steps| && steps[i] == Family(DropCf) && trace[i].current == Some(v)
    ensures TakesDown(trace, i, v) <==> trace[i].cfRefs == 2
    ensures TakesDown(trace, i, v) <==> trace[i].cfExternal == 1 && Uncleaned(trace[i].svs) == 1
  {
    var s := trace[i];
    RunInv(trace, steps, i);
    HeldIsLive(s, v);
    UncleanedMembers(s.svs, v, v);
  }

  lemma {:induction false} OnlyLeftLater(trace: seq<State>, steps: seq<Step>, i: nat, j: nat, v: nat)
    requires Run(trace, steps) && TakesDown(trace, i, v) && i < j < |trace|
    ensures OnlyLeft(trace[j], v)
    decreases j
  {
    hide Run, Inv, Apply, Enabled, OnlyLeft;
    RunSize(trace, steps);
    RunInv(trace, steps, j - 1);
    RunStep(trace, steps, j - 1);
    if j == i + 1 {
      GoesAlone(trace[i], steps[i]);
      RunInv(trace, steps, j);
      AloneLeaves(trace[j]);
    } else {
      OnlyLeftLater(trace, steps, i, j - 1, v);
      OnlyLeftStays(trace[j - 1], steps[j - 1], v);
    }
  }

  /** The state before the reference is dropped: it is the last one unless somebody outside holds the SuperVersion. */
  lemma DropIsLast(s: State, v: nat)
    requires Inv(s) && FamilyEnabled(s, DropCurrent) && s.tear.sv == v
    ensures var r := ApplyFamily(s, DropCurrent);
      r.tear == TearLast(v) && r.mutex == Some(ByTear) <==> !KeptOutside(s, v)
  {
    HeldIsLive(s, v);
    assert Balanced(s, v);
    forall t | 0 <= t < |s.threads| ensures !s.threads[t].slot.Cached? { assert ThreadOk(s, t, s.threads[t]); }
    NoOwners(s.threads, v);
  }

  /** Once super_version_ is null and the slots are empty, dropping its reference deletes the SuperVersion, and with it
      the column family, at once (under the same hold of the mutex), unless a pin or a reader giving its
      SuperVersion back keeps that SuperVersion. */
  lemma LastDropDeletes(trace: seq<State>, steps: seq<Step>, i: nat, j: nat, v: nat)
    requires Run(trace, steps) && TakesDown(trace, i, v) && i < j < |steps|
    ensures steps[j] == Family(DropCurrent) ==>
      (trace[j + 1].tear == TearLast(v) && trace[j + 1].mutex == Some(ByTear) <==> !KeptOutside(trace[j], v))
    ensures steps[j] == Family(CleanCurrent) ==> trace[j + 1].cfDeleted == 1
  {
    var s := trace[j];
    RunInv(trace, steps, j);
    RunInv(trace, steps, j + 1);
    OnlyLeftLater(trace, steps, i, j, v);
    if steps[j] == Family(DropCurrent) { DropIsLast(s, v); }
    if steps[j] == Family(CleanCurrent) {
      LastCleanupDeletes(trace, steps, i, j + 1, v);
      LateCleanup(s.(tear := NoTear, mutex := None), v);
      assert Balanced(s, v) && Balanced(trace[j + 1], v);
    }
  }

  /** Otherwise that holder deletes it: from then on, whatever happens, the column family has been deleted if and only
      if the SuperVersion that was current has had its Cleanup, that is, if and only if nobody holds it and nobody
      owes it a Cleanup any more. */
  lemma LastCleanupDeletes(trace: seq<State>, steps: seq<Step>, i: nat, j: nat, v: nat)
    requires Run(trace, steps) && TakesDown(trace, i, v) && i < j < |trace|
    ensures v < |trace[j].svs| && (trace[j].cfDeleted == 1 <==> trace[j].svs[v].cleanups == 1)
    ensures trace[j].cfDeleted == 1 <==> Holders(trace[j], v) == 0 && Cleaners(trace[j], v) == 0
  {
    var s := trace[j];
    OnlyLeftLater(trace, steps, i, j, v);
    RunInv(trace, steps, j);
    assert Balanced(s, v);
    CfDeletedOnce(trace, steps, j);
    if s.svs[v].cleanups > 0 && s.cfRefs != 0 {
      var u := UncleanedWitness(s.svs, v);
      assert false;
    }
  }
}
