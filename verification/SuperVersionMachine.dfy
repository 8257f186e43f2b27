/**
 The hand-off of SuperVersions between readers and installers of a column family.

 A reader swaps its thread-local pointer for an in-use mark, works with the SuperVersion it found
 (or, if that one is stale, with the current one, which it references under the DB mutex) and gives
 the pointer back with a compare-and-swap.  An installer, holding the DB mutex, publishes a new
 SuperVersion and scrapes every thread-local slot.  SuperVersions are reference counted, and the last
 one to drop a reference runs Cleanup; Cleanup in turn drops a reference to the column family, and whoever
 drops the column family's last reference but super_version_'s takes super_version_ down, slot by slot.

 Every access to an atomic is one step of the machine below, together with what the same thread then does to
 data that the DB mutex protects; so a theorem about all its runs is a theorem about all interleavings.  A slot
 that is emptied for good (at a thread's exit or when super_version_ is taken down) and the Unref of what it
 held are one step.  SuperVersions are named by their index in
 order of installation, threads by their index; the number of threads is arbitrary.
 */
module SuperVersionMachine {
  import opened Basics

  /** A SuperVersion: version_number, refs, and how many times Cleanup has run on it. */
  datatype Sv = Sv(version: nat, refs: int, cleanups: nat)

  /** A thread-local slot: kSVObsolete, kSVInUse or a cached pointer. */
  datatype Slot = Obsolete | InUse | Cached(sv: nat)

  /** Where a reader stands. */
  datatype Pc =
    | Idle
    | Swapped(ptr: Option<nat>)  // swapped in kSVInUse; the version test is next
    | Stale(sv: nat)             // the test failed on a real pointer; its Unref is next
    | StaleLast(sv: nat)         // that Unref returned true; wants the mutex
    | Waiting                    // nothing to clean; wants the mutex
    | CleaningStale(sv: nat)     // has the mutex; Cleanup is next
    | Locked                     // has the mutex; super_version_->Ref() is next
    | Reffed(sv: nat)            // has the mutex; Unlock is next
    | Borrowing(sv: nat)         // GetThreadLocalSuperVersion has returned sv
    | Returning(sv: nat)         // the compare-and-swap failed; Unref is next
    | ReturnLast(sv: nat)        // that Unref returned true; wants the mutex
    | CleaningReturn(sv: nat)    // has the mutex; Cleanup is next

  datatype Thread = Thread(slot: Slot, pc: Pc)

  /** Where InstallSuperVersion stands. */
  datatype Installer =
    | Off
    | Published(was: Option<nat>)     // super_version_ replaced; ++super_version_number_ is next
    | Numbered(was: Option<nat>)      // number bumped; the version stamp is next
    | Scraping(prev: nat, next: nat)  // slots below `next` have been scraped
    | Unreffing(prev: nat)            // dropping the scraped pointers, then the old one
    | CleaningOld(prev: nat)          // the old one lost its last reference; Cleanup is next

  /** Where UnrefAndTryDelete stands once it has set super_version_ to null. */
  datatype Tear =
    | NoTear
    | Resetting(sv: nat, next: nat)   // local_sv_.reset(): slots below `next` have been emptied
    | TearLast(sv: nat)               // sv lost its last reference; Cleanup is next

  datatype Owner = ByThread(t: nat) | ByInstaller | ByTear

  datatype State = State(
    svs: seq<Sv>,
    current: Option<nat>,      // super_version_
    number: nat,               // super_version_number_
    threads: seq<Thread>,
    pins: multiset<nat>,       // explicit references held outside the thread-local protocol
    cleaners: multiset<nat>,   // SuperVersions whose last pin was dropped; Cleanup is due
    mutex: Option<Owner>,      // the DB mutex
    inst: Installer,
    tear: Tear,
    scraped: multiset<nat>,    // pointers collected by the scrape, not yet dropped
    cfExternal: nat,           // references to the column family other than SuperVersions'
    cfRefs: int,               // ColumnFamilyData::refs_
    cfDeleted: nat)            // how many times the column family was deleted

  // ---------------------------------------------------------------- steps

  datatype ReaderOp =
    | Swap | Check | UnrefStale | Lock | CleanStale | RefCurrent | Unlock
    | Return | UnrefReturned | LockReturn | CleanReturn | ThreadExit

  datatype PinOp = PinBorrowed(t: nat) | PinCurrent | PinAgain(v: nat) | Unpin(v: nat) | CleanPinned(v: nat)

  datatype InstallOp =
    | BeginInstall | BumpNumber | Stamp | ScrapeNext | ScrapeDone | UnrefScraped(v: nat) | DropOld | CleanOld

  datatype CfOp = RefCf | DropCf | ResetSlot | DropCurrent | CleanCurrent

  datatype Step = Read(t: nat, r: ReaderOp) | Pin(p: PinOp) | Install(i: InstallOp) | Family(f: CfOp)

  /** GetThreadLocalSuperVersion is between its Swap and the caller's Return. */
  predicate InFlight(pc: Pc) {
    pc.Swapped? || pc.Stale? || pc.StaleLast? || pc.Waiting? || pc.CleaningStale? || pc.Locked?
    || pc.Reffed? || pc.Borrowing?
  }

  function Replaced(inst: Installer): Option<nat> {
    match inst
    case Published(was) => was
    case Numbered(was) => was
    case Scraping(prev, _) => Some(prev)
    case Unreffing(prev) => Some(prev)
    case _ => None
  }

  predicate ReadEnabled(s: State, th: Thread, r: ReaderOp) {
    match r
    // Readers come after the first install and hold the column family alive.
    case Swap => th.pc.Idle? && s.cfExternal > 0 && s.current.Some?
    case Check => th.pc.Swapped?
    case UnrefStale => th.pc.Stale?
    case Lock => s.mutex.None? && (th.pc.StaleLast? || th.pc.Waiting?)
    case CleanStale => th.pc.CleaningStale?
    case RefCurrent => th.pc.Locked?
    case Unlock => th.pc.Reffed?
    case Return => th.pc.Borrowing?
    case UnrefReturned => th.pc.Returning?
    case LockReturn => s.mutex.None? && th.pc.ReturnLast?
    case CleanReturn => th.pc.CleaningReturn?
    case ThreadExit => th.pc.Idle? && th.slot.Cached?
  }

  predicate PinEnabled(s: State, p: PinOp) {
    match p
    case PinBorrowed(t) => t < |s.threads| && s.threads[t].pc.Borrowing?
    case PinCurrent => s.mutex.None? && s.current.Some?
    case PinAgain(v) => v in s.pins
    case Unpin(v) => v in s.pins
    case CleanPinned(v) => s.mutex.None? && v in s.cleaners
  }

  predicate InstallEnabled(s: State, i: InstallOp) {
    match i
    case BeginInstall => s.mutex.None? && s.cfExternal > 0
    case BumpNumber => s.inst.Published?
    case Stamp => s.inst.Numbered?
    case ScrapeNext => s.inst.Scraping? && s.inst.next < |s.threads|
    case ScrapeDone => s.inst.Scraping? && s.inst.next >= |s.threads|
    case UnrefScraped(v) => s.inst.Unreffing? && v in s.scraped
    case DropOld => s.inst.Unreffing? && s.scraped == multiset{}
    case CleanOld => s.inst.CleaningOld?
  }

  predicate FamilyEnabled(s: State, f: CfOp) {
    match f
    case RefCf => s.cfExternal > 0
    // The last outside reference goes only once no reader is in flight.
    case DropCf => s.mutex.None? && s.cfExternal > 0
                   && (s.cfExternal == 1 ==> forall t :: 0 <= t < |s.threads| ==> !InFlight(s.threads[t].pc))
    case ResetSlot => s.tear.Resetting? && s.tear.next < |s.threads|
    case DropCurrent => s.tear.Resetting? && s.tear.next >= |s.threads|
    case CleanCurrent => s.tear.TearLast?
  }

  predicate Enabled(s: State, step: Step) {
    match step
    case Read(t, r) => t < |s.threads| && ReadEnabled(s, s.threads[t], r)
    case Pin(p) => PinEnabled(s, p)
    case Install(i) => InstallEnabled(s, i)
    case Family(f) => FamilyEnabled(s, f)
  }

  function AddRefs(s: State, v: nat, d: int): State {
    if v < |s.svs| then s.(svs := s.svs[v := s.svs[v].(refs := s.svs[v].refs + d)]) else s
  }

  predicate Dead(s: State, v: nat) {
    v < |s.svs| && s.svs[v].refs == 0
  }

  function SetPc(s: State, t: nat, pc: Pc): State
    requires t < |s.threads|
  {
    s.(threads := s.threads[t := s.threads[t].(pc := pc)])
  }

  function SetSlot(s: State, t: nat, slot: Slot): State
    requires t < |s.threads|
  {
    s.(threads := s.threads[t := s.threads[t].(slot := slot)])
  }

  /** ColumnFamilyData::UnrefAndTryDelete, up to the moment super_version_ is null. */
  function UnrefCf(s: State): State {
    var s1 := s.(cfRefs := s.cfRefs - 1);
    if s.cfRefs == 1 then s1.(cfDeleted := s.cfDeleted + 1)
    else if s.cfRefs == 2 && s.current.Some? then
      s1.(current := None, tear := Resetting(s.current.value, 0), mutex := Some(ByTear))
    else s1
  }

  /** SuperVersion::Cleanup, as far as it concerns this protocol. */
  function Cleanup(s: State, v: nat): State {
    if v < |s.svs| then UnrefCf(s.(svs := s.svs[v := s.svs[v].(cleanups := s.svs[v].cleanups + 1)])) else s
  }

  // GetThreadLocalSuperVersion

  function DoSwap(s: State, t: nat): State
    requires t < |s.threads|
  {
    var ptr := if s.threads[t].slot.Cached? then Some(s.threads[t].slot.sv) else None;
    s.(threads := s.threads[t := Thread(InUse, Swapped(ptr))])
  }

  function DoCheck(s: State, t: nat): State
    requires t < |s.threads| && s.threads[t].pc.Swapped?
  {
    match s.threads[t].pc.ptr
    case None => SetPc(s, t, Waiting)
    case Some(v) =>
      SetPc(s, t, if v < |s.svs| && s.svs[v].version == s.number then Borrowing(v) else Stale(v))
  }

  function DoUnrefStale(s: State, t: nat): State
    requires t < |s.threads| && s.threads[t].pc.Stale?
  {
    var v := s.threads[t].pc.sv;
    var s1 := AddRefs(s, v, -1);
    SetPc(s1, t, if Dead(s1, v) then StaleLast(v) else Waiting)
  }

  function DoLock(s: State, t: nat): State
    requires t < |s.threads| && (s.threads[t].pc.StaleLast? || s.threads[t].pc.Waiting?)
  {
    var pc := s.threads[t].pc;
    SetPc(s, t, if pc.StaleLast? then CleaningStale(pc.sv) else Locked).(mutex := Some(ByThread(t)))
  }

  function DoCleanStale(s: State, t: nat): State
    requires t < |s.threads| && s.threads[t].pc.CleaningStale?
  {
    Cleanup(SetPc(s, t, Locked), s.threads[t].pc.sv)
  }

  function DoRefCurrent(s: State, t: nat): State
    requires t < |s.threads|
  {
    match s.current
    case None => s
    case Some(v) => SetPc(AddRefs(s, v, 1), t, Reffed(v))
  }

  function DoUnlock(s: State, t: nat): State
    requires t < |s.threads| && s.threads[t].pc.Reffed?
  {
    SetPc(s, t, Borrowing(s.threads[t].pc.sv)).(mutex := None)
  }

  // ReturnThreadLocalSuperVersion and the Cleanup its caller may owe

  function DoReturn(s: State, t: nat): State
    requires t < |s.threads| && s.threads[t].pc.Borrowing?
  {
    var v := s.threads[t].pc.sv;
    s.(threads := s.threads[t := if s.threads[t].slot.InUse? then Thread(Cached(v), Idle)
                                 else Thread(s.threads[t].slot, Returning(v))])
  }

  function DoUnrefReturned(s: State, t: nat): State
    requires t < |s.threads| && s.threads[t].pc.Returning?
  {
    var v := s.threads[t].pc.sv;
    var s1 := AddRefs(s, v, -1);
    SetPc(s1, t, if Dead(s1, v) then ReturnLast(v) else Idle)
  }

  function DoLockReturn(s: State, t: nat): State
    requires t < |s.threads| && s.threads[t].pc.ReturnLast?
  {
    SetPc(s, t, CleaningReturn(s.threads[t].pc.sv)).(mutex := Some(ByThread(t)))
  }

  function DoCleanReturn(s: State, t: nat): State
    requires t < |s.threads| && s.threads[t].pc.CleaningReturn?
  {
    Cleanup(SetPc(s, t, Idle).(mutex := None), s.threads[t].pc.sv)
  }

  // SuperVersionUnrefHandle, and explicit references

  function DoThreadExit(s: State, t: nat): State
    requires t < |s.threads| && s.threads[t].slot.Cached?
  {
    AddRefs(SetSlot(s, t, Obsolete), s.threads[t].slot.sv, -1)
  }

  function DoPin(s: State, v: nat): State {
    AddRefs(s, v, 1).(pins := s.pins + multiset{v})
  }

  function DoUnpin(s: State, v: nat): State {
    var s1 := AddRefs(s, v, -1).(pins := s.pins - multiset{v});
    if Dead(s1, v) then s1.(cleaners := s.cleaners + multiset{v}) else s1
  }

  function DoCleanPinned(s: State, v: nat): State {
    Cleanup(s.(cleaners := s.cleaners - multiset{v}), v)
  }

  // InstallSuperVersion

  function DoBeginInstall(s: State): State {
    s.(svs := s.svs + [Sv(0, 1, 0)], current := Some(|s.svs|), mutex := Some(ByInstaller),
       inst := Published(s.current), cfRefs := s.cfRefs + 1)
  }

  function DoBumpNumber(s: State): State
    requires s.inst.Published?
  {
    s.(number := s.number + 1, inst := Numbered(s.inst.was))
  }

  function DoStamp(s: State): State
    requires s.inst.Numbered?
  {
    var s1 := if s.current.Some? && s.current.value < |s.svs|
              then s.(svs := s.svs[s.current.value := s.svs[s.current.value].(version := s.number)]) else s;
    if s.inst.was.Some? then s1.(inst := Scraping(s.inst.was.value, 0)) else s1.(inst := Off, mutex := None)
  }

  function DoScrapeNext(s: State): State
    requires s.inst.Scraping? && s.inst.next < |s.threads|
  {
    var n := s.inst.next;
    var s1 := SetSlot(s, n, Obsolete).(inst := Scraping(s.inst.prev, n + 1));
    if s.threads[n].slot.Cached? then s1.(scraped := s.scraped + multiset{s.threads[n].slot.sv}) else s1
  }

  function DoScrapeDone(s: State): State
    requires s.inst.Scraping?
  {
    s.(inst := Unreffing(s.inst.prev))
  }

  function DoUnrefScraped(s: State, v: nat): State {
    AddRefs(s, v, -1).(scraped := s.scraped - multiset{v})
  }

  function DoDropOld(s: State): State
    requires s.inst.Unreffing?
  {
    var s1 := AddRefs(s, s.inst.prev, -1);
    if Dead(s1, s.inst.prev) then s1.(inst := CleaningOld(s.inst.prev)) else s1.(inst := Off, mutex := None)
  }

  function DoCleanOld(s: State): State
    requires s.inst.CleaningOld?
  {
    Cleanup(s.(inst := Off, mutex := None), s.inst.prev)
  }

  // The column family

  function DoRefCf(s: State): State {
    s.(cfExternal := s.cfExternal + 1, cfRefs := s.cfRefs + 1)
  }

  function DoDropCf(s: State): State
    requires s.cfExternal > 0
  {
    UnrefCf(s.(cfExternal := s.cfExternal - 1))
  }

  function DoResetSlot(s: State): State
    requires s.tear.Resetting? && s.tear.next < |s.threads|
  {
    var n := s.tear.next;
    var s1 := s.(tear := Resetting(s.tear.sv, n + 1));
    if s.threads[n].slot.Cached? then AddRefs(SetSlot(s1, n, Obsolete), s.threads[n].slot.sv, -1) else s1
  }

  function DoDropCurrent(s: State): State
    requires s.tear.Resetting?
  {
    var s1 := AddRefs(s, s.tear.sv, -1);
    if Dead(s1, s.tear.sv) then s1.(tear := TearLast(s.tear.sv)) else s1.(tear := NoTear, mutex := None)
  }

  function DoCleanCurrent(s: State): State
    requires s.tear.TearLast?
  {
    Cleanup(s.(tear := NoTear, mutex := None), s.tear.sv)
  }

  function ApplyRead(s: State, t: nat, r: ReaderOp): State
    requires t < |s.threads| && ReadEnabled(s, s.threads[t], r)
  {
    match r
    case Swap => DoSwap(s, t)
    case Check => DoCheck(s, t)
    case UnrefStale => DoUnrefStale(s, t)
    case Lock => DoLock(s, t)
    case CleanStale => DoCleanStale(s, t)
    case RefCurrent => DoRefCurrent(s, t)
    case Unlock => DoUnlock(s, t)
    case Return => DoReturn(s, t)
    case UnrefReturned => DoUnrefReturned(s, t)
    case LockReturn => DoLockReturn(s, t)
    case CleanReturn => DoCleanReturn(s, t)
    case ThreadExit => DoThreadExit(s, t)
  }

  function ApplyPin(s: State, p: PinOp): State
    requires PinEnabled(s, p)
  {
    match p
    case PinBorrowed(t) => DoPin(s, s.threads[t].pc.sv)
    case PinCurrent => DoPin(s, s.current.value)
    case PinAgain(v) => DoPin(s, v)
    case Unpin(v) => DoUnpin(s, v)
    case CleanPinned(v) => DoCleanPinned(s, v)
  }

  function ApplyInstall(s: State, i: InstallOp): State
    requires InstallEnabled(s, i)
  {
    match i
    case BeginInstall => DoBeginInstall(s)
    case BumpNumber => DoBumpNumber(s)
    case Stamp => DoStamp(s)
    case ScrapeNext => DoScrapeNext(s)
    case ScrapeDone => DoScrapeDone(s)
    case UnrefScraped(v) => DoUnrefScraped(s, v)
    case DropOld => DoDropOld(s)
    case CleanOld => DoCleanOld(s)
  }

  function ApplyFamily(s: State, f: CfOp): State
    requires FamilyEnabled(s, f)
  {
    match f
    case RefCf => DoRefCf(s)
    case DropCf => DoDropCf(s)
    case ResetSlot => DoResetSlot(s)
    case DropCurrent => DoDropCurrent(s)
    case CleanCurrent => DoCleanCurrent(s)
  }

  function Apply(s: State, step: Step): State
    requires Enabled(s, step)
  {
    match step
    case Read(t, r) => ApplyRead(s, t, r)
    case Pin(p) => ApplyPin(s, p)
    case Install(i) => ApplyInstall(s, i)
    case Family(f) => ApplyFamily(s, f)
  }
}
