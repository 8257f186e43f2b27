/**
 The displacement counts of the clock table, on every interleaving.

 A slot's count is the number of stored entries whose probe path passes over it, once each thread's own share is
 counted in: what an insertion under way has displaced, and what a removal or a rollback under way has yet to take
 back.  The table has a power of two of slots.
 */
module ClockDisplacement {
  import opened Basics
  import opened ClockProbe
  import opened ClockMachine
  import opened ClockOwnership
  import opened Sums

  // ---------------------------------------------------------------- paths

  /** How often slot g is among the first i probes for k. */
  function Seen(k: Key, i: nat, g: nat, size: nat): nat
    requires size > 0
  {
    if i == 0 then 0 else Seen(k, i - 1, g, size) + B(Probe(k, i - 1, size) == g)
  }

  /** How often k's path passes over g before it comes to h; nothing leads to a handle outside the table. */
  ghost function Passes(k: Key, h: nat, g: nat, n: nat): nat {
    if h < Pow2(n) then Seen(k, Turn(k, h, n), g, Pow2(n)) else 0
  }

  lemma PassesFirst(k: Key, g: nat, n: nat)
    ensures Passes(k, First(k, Pow2(n)), g, n) == 0
  {
    FirstTurn(k, n);
  }

  /** One step along the path. */
  lemma PassesNext(k: Key, h: nat, cur: nat, g: nat, n: nat)
    requires h < Pow2(n) && cur < Pow2(n) && cur != h && Turn(k, cur, n) <= Turn(k, h, n)
    ensures var next := Advance(k, cur, Pow2(n));
      Passes(k, next, g, n) == Passes(k, cur, g, n) + B(cur == g) && Turn(k, next, n) <= Turn(k, h, n)
  {
    if Turn(k, cur, n) == Turn(k, h, n) { SameTurn(k, cur, h, n); }
    NextTurn(k, cur, n);
  }

  /** The slot of the p-th probe, in the first round. */
  lemma PassesProbe(k: Key, p: nat, g: nat, n: nat)
    requires p < Pow2(n)
    ensures Turn(k, Probe(k, p, Pow2(n)), n) == p && Passes(k, Probe(k, p, Pow2(n)), g, n) == Seen(k, p, g, Pow2(n))
  {
    TurnOfProbe(k, p, n);
  }

  // ---------------------------------------------------------------- shares

  function KeyAt(es: seq<Entry>, e: nat): Key {
    if e < |es| then es[e].key else Key(0, 0)
  }

  /** What g's count includes on behalf of an insertion. */
  ghost function InsertDue(p: InsertPc, g: nat, n: nat): int {
    var k := p.ins.key;
    if p.Lost? then Seen(k, Pow2(n), g, Pow2(n)) - Seen(k, p.n, g, Pow2(n))
    else if p.Back? then Passes(k, p.h, g, n) - Passes(k, p.cur, g, n)
    else if Placing(p) then Seen(k, p.p, g, Pow2(n))
    else 0
  }

  /** What an entry that Erase has taken out still has on its path. */
  ghost function ContDue(cont: Cont, g: nat, n: nat): int {
    if cont.ToErase? then Passes(cont.key, cont.h, g, n) else 0
  }

  /** What g's count includes on behalf of a removal; the entry counts as stored until it is disposed of. */
  ghost function RemoveDue(es: seq<Entry>, r: RemovePc, g: nat, n: nat): int {
    match r
    case Roll(_, e, cur, _) => 0 - Passes(KeyAt(es, e), cur, g, n)
    case Dispose(h, e, cont) => if cont.ToErase? then 0 else 0 - Passes(KeyAt(es, e), h, g, n)
    case Mark(_, _, cont) => ContDue(cont, g, n)
    case Reclaim1(_, _, cont) => ContDue(cont, g, n)
    case Reclaim2(_, _, cont) => ContDue(cont, g, n)
    case RollAfter(h, key, cur, _) => Passes(key, h, g, n) - Passes(key, cur, g, n)
    case _ => 0
  }

  ghost function Due(es: seq<Entry>, pc: Pc, g: nat, n: nat): int {
    match pc
    case Insert(p) => InsertDue(p, g, n)
    case Remove(r) => RemoveDue(es, r, g, n)
    case _ => 0
  }

  /** What a stored entry adds to g's count. */
  ghost function Stored(x: Entry, g: nat, n: nat): int {
    if x.loc.InHandle? then Passes(x.key, x.loc.h, g, n) else 0
  }

  ghost function Storeds(es: seq<Entry>, g: nat, n: nat): seq<int> {
    seq(|es|, i requires 0 <= i < |es| => Stored(es[i], g, n))
  }

  ghost function Dues(es: seq<Entry>, ths: seq<Pc>, g: nat, n: nat): seq<int> {
    seq(|ths|, i requires 0 <= i < |ths| => Due(es, ths[i], g, n))
  }

  /** g's count is what the stored entries and the threads account for. */
  ghost predicate Counted(s: State, g: nat, n: nat) {
    g < |s.handles| && s.handles[g].disp == Sum(Storeds(s.entries, g, n)) + Sum(Dues(s.entries, s.threads, g, n))
  }

  // ---------------------------------------------------------------- what threads remember of their path

  ghost predicate InsertPath(p: InsertPc, n: nat) {
    var k := p.ins.key;
    if p.Lost? then p.cur == Probe(k, p.n, Pow2(n))
    else if p.Back? then p.h < Pow2(n) && p.cur < Pow2(n) && Turn(k, p.cur, n) <= Turn(k, p.h, n)
    else if Placing(p) then p.p < Pow2(n) && p.h == Probe(k, p.p, Pow2(n))
    else true
  }

  ghost predicate RemovePath(es: seq<Entry>, r: RemovePc, n: nat) {
    match r
    case Roll(h, e, cur, cont) =>
      && !cont.ToErase? && h < Pow2(n) && cur < Pow2(n) && Turn(KeyAt(es, e), cur, n) <= Turn(KeyAt(es, e), h, n)
    case Dispose(h, e, cont) => cont.ToErase? ==> cont.h == h && cont.key == KeyAt(es, e)
    case RollAfter(h, key, cur, _) => h < Pow2(n) && cur < Pow2(n) && Turn(key, cur, n) <= Turn(key, h, n)
    case Mark(_, _, cont) => cont.ToErase? ==> cont.h < Pow2(n)
    case Reclaim1(_, _, cont) => cont.ToErase? ==> cont.h < Pow2(n)
    case Reclaim2(_, _, cont) => cont.ToErase? ==> cont.h < Pow2(n)
    case _ => true
  }

  ghost predicate Path(s: State, pc: Pc, n: nat) {
    match pc
    case Insert(p) => InsertPath(p, n)
    case Remove(r) => RemovePath(s.entries, r, n)
    case Take(Hidden(key, _, h, _)) => h < |s.handles| && KeyIn(s, h, key)
    case _ => true
  }

  ghost predicate Paths(s: State, n: nat) {
    s.size == Pow2(n) && forall t: nat {:trigger s.threads[t]} :: t < |s.threads| ==> Path(s, s.threads[t], n)
  }

  // ---------------------------------------------------------------- one thread moves

  /** Thread t goes on; only entry e0 (if there is such an entry) changes, and not its key. */
  ghost predicate Moves(s: State, r: State, t: nat, e0: nat) {
    && t < |s.threads| && |r.threads| == |s.threads| && r.threads == s.threads[t := r.threads[t]] && r.size == s.size
    && |r.entries| == |s.entries| && |r.handles| >= |s.handles|
    && (forall e: nat {:trigger r.entries[e]} :: e < |s.entries| ==>
          r.entries[e].key == s.entries[e].key && (e != e0 ==> r.entries[e] == s.entries[e]))
  }

  ghost function Gain(s: State, r: State, e0: nat, g: nat, n: nat): int
    requires |r.entries| == |s.entries|
  {
    if e0 < |s.entries| then Stored(r.entries[e0], g, n) - Stored(s.entries[e0], g, n) else 0
  }

  /** g's count changes by what t's share and e0 do. */
  ghost predicate Balances(s: State, r: State, t: nat, e0: nat, g: nat, n: nat) {
    && Moves(s, r, t, e0) && g < |s.handles|
    && r.handles[g].disp - s.handles[g].disp
       == Gain(s, r, e0, g, n) + Due(r.entries, r.threads[t], g, n) - Due(s.entries, s.threads[t], g, n)
  }

  lemma DueSame(es: seq<Entry>, fs: seq<Entry>, pc: Pc, g: nat, n: nat)
    requires |es| <= |fs| && forall e: nat {:trigger fs[e]} :: e < |es| ==> fs[e].key == es[e].key
    requires pc.Remove? && (pc.r.Roll? || pc.r.Dispose?) ==> pc.r.e < |es|
    ensures Due(fs, pc, g, n) == Due(es, pc, g, n)
  {
  }

  lemma BalancesKeep(s: State, r: State, t: nat, e0: nat, g: nat, n: nat)
    requires Counted(s, g, n) && Balances(s, r, t, e0, g, n)
    requires forall u: nat {:trigger s.threads[u]} :: u < |s.threads| ==> InBounds(s, s.threads[u])
    ensures Counted(r, g, n)
  {
    hide Due, Stored;
    var ds := Dues(s.entries, s.threads, g, n);
    var d := Due(r.entries, r.threads[t], g, n);
    forall u: nat | u < |s.threads| && u != t ensures Due(r.entries, r.threads[u], g, n) == ds[u] {
      assert r.threads[u] == s.threads[u] && InBounds(s, s.threads[u]);
      DueSame(s.entries, r.entries, s.threads[u], g, n);
    }
    assert Dues(r.entries, r.threads, g, n) == ds[t := d];
    SumUpdate(ds, t, d);
    var ss := Storeds(s.entries, g, n);
    if e0 < |s.entries| {
      assert Storeds(r.entries, g, n) == ss[e0 := Stored(r.entries[e0], g, n)];
      SumUpdate(ss, e0, Stored(r.entries[e0], g, n));
    } else {
      assert Storeds(r.entries, g, n) == ss;
    }
  }

  // ---------------------------------------------------------------- insertion

  lemma DisplaceBalances(s: State, t: nat, p: InsertPc, g: nat, n: nat)
    requires Shaped(s) && s.size == Pow2(n) && t < |s.threads| && s.threads[t] == Insert(p) && g < s.size
    requires p.Displace? && p.h < s.size && p.ins.e < |s.entries| && InsertPath(p, n)
    ensures Balances(s, GoPlace(s, t, p), t, |s.entries|, g, n) && Path(s, GoPlace(s, t, p).threads[t], n)
  {
    hide Turn, Passes, Pow2, Probe, Advance, First;
    AdvanceIsNextProbe(p.ins.key, p.p, s.size);
  }

  lemma MatchBalances(s: State, t: nat, p: InsertPc, g: nat, n: nat)
    requires Shaped(s) && s.size == Pow2(n) && t < |s.threads| && s.threads[t] == Insert(p) && g < s.size
    requires p.Match? && p.h < s.size && p.ins.e < |s.entries| && InsertPath(p, n)
    ensures Balances(s, GoPlace(s, t, p), t, |s.entries|, g, n) && Path(s, GoPlace(s, t, p).threads[t], n)
  {
    hide Turn, Passes, Pow2, Probe, Advance, First, Seen;
    var k := p.ins.key;
    PassesProbe(k, p.p, g, n);
    PassesFirst(k, g, n);
    FirstTurn(k, n);
  }

  /** Claiming, writing and boosting leave the path as it is. */
  lemma ProbeBalances(s: State, t: nat, p: InsertPc, g: nat, n: nat)
    requires Shaped(s) && s.size == Pow2(n) && t < |s.threads| && s.threads[t] == Insert(p) && g < s.size
    requires p.Claim? || p.Write? || p.Boost? || p.Unboost?
    requires p.h < s.size && p.ins.e < |s.entries| && InsertPath(p, n)
    ensures Balances(s, GoPlace(s, t, p), t, |s.entries|, g, n) && Path(s, GoPlace(s, t, p).threads[t], n)
  {
    hide Turn, Passes, Pow2, Probe, Advance, First, Seen;
  }

  lemma PublishBalances(s: State, t: nat, p: InsertPc, g: nat, n: nat)
    requires Shaped(s) && s.size == Pow2(n) && t < |s.threads| && s.threads[t] == Insert(p) && g < s.size
    requires p.Publish? && p.h < s.size && ThreadOk(s, t) && InsertPath(p, n)
    ensures Balances(s, GoPlace(s, t, p), t, p.ins.e, g, n) && Path(s, GoPlace(s, t, p).threads[t], n)
  {
    hide Turn;
    PassesProbe(p.ins.key, p.p, g, n);
  }

  lemma BackBalances(s: State, t: nat, p: InsertPc, g: nat, n: nat)
    requires Shaped(s) && s.size == Pow2(n) && t < |s.threads| && s.threads[t] == Insert(p) && g < s.size
    requires (p.Lost? || p.Back?) && InBounds(s, s.threads[t]) && InsertPath(p, n)
    ensures Balances(s, GoBack(s, t, p), t, |s.entries|, g, n) && Path(s, GoBack(s, t, p).threads[t], n)
  {
    hide Turn;
    var k := p.ins.key;
    if p.Back? {
      if p.cur != p.h { PassesNext(k, p.h, p.cur, g, n); }
    } else {
      AdvanceIsNextProbe(k, p.n, s.size);
    }
  }

  /** Once the entry is charged the path starts, or the entry goes without one. */
  lemma ChargedDue(es: seq<Entry>, ins: Ins, g: nat, n: nat)
    ensures Due(es, Charged(ins, Pow2(n)), g, n) == 0
    ensures Charged(ins, Pow2(n)).Insert? && InsertPath(Charged(ins, Pow2(n)).n, n)
  {
    hide Turn, Passes, Pow2, First;
    AdvanceIsNextProbe(ins.key, 0, Pow2(n));
  }

  lemma StrictChargeBalances(s: State, t: nat, p: InsertPc, g: nat, n: nat)
    requires Shaped(s) && s.size == Pow2(n) && t < |s.threads| && s.threads[t] == Insert(p) && g < s.size
    requires (p.StrictCharge? || p.StrictAdjust? || p.StrictFail?) && ThreadOk(s, t)
    ensures p.ins.e < |s.entries| && Balances(s, GoCharge(s, t, p), t, p.ins.e, g, n)
    ensures Path(s, GoCharge(s, t, p).threads[t], n)
  {
    hide Turn, Passes, Pow2, Charged;
    ChargedDue(s.entries, p.ins, g, n);
  }

  lemma LooseChargeBalances(s: State, t: nat, p: InsertPc, g: nat, n: nat)
    requires Shaped(s) && s.size == Pow2(n) && t < |s.threads| && s.threads[t] == Insert(p) && g < s.size
    requires (p.LooseLoad? || p.LooseAdd? || p.LooseFail? || p.LooseForce?) && ThreadOk(s, t)
    ensures p.ins.e < |s.entries| && Balances(s, GoCharge(s, t, p), t, p.ins.e, g, n)
    ensures Path(s, GoCharge(s, t, p).threads[t], n)
  {
    hide Turn, Passes, Pow2, Charged, LooseNeed;
    ChargedDue(s.entries, p.ins, g, n);
  }

  /** Charging has nothing to do with displacements. */
  lemma ChargeBalances(s: State, t: nat, p: InsertPc, g: nat, n: nat)
    requires Shaped(s) && s.size == Pow2(n) && t < |s.threads| && s.threads[t] == Insert(p) && g < s.size
    requires !Placing(p) && !Backing(p) && ThreadOk(s, t)
    ensures p.ins.e < |s.entries| && Balances(s, GoCharge(s, t, p), t, p.ins.e, g, n)
    ensures Path(s, GoCharge(s, t, p).threads[t], n)
  {
    hide GoCharge, Balances, Path;
    if p.StrictCharge? || p.StrictAdjust? || p.StrictFail? {
      StrictChargeBalances(s, t, p, g, n);
    } else {
      LooseChargeBalances(s, t, p, g, n);
    }
  }

  lemma SettleBalances(s: State, t: nat, p: InsertPc, g: nat, n: nat)
    requires Shaped(s) && s.size == Pow2(n) && t < |s.threads| && s.threads[t] == Insert(p) && g < s.size
    requires (p.Uncharge? || p.DropProto? || p.Alone?) && ThreadOk(s, t)
    ensures p.ins.e < |s.entries| && Balances(s, GoBack(s, t, p), t, p.ins.e, g, n)
    ensures Path(s, GoBack(s, t, p).threads[t], n)
  {
    hide Turn, Pow2, Probe, Seen;
  }

  // ---------------------------------------------------------------- removal

  lemma RollBalances(s: State, t: nat, r: RemovePc, g: nat, n: nat)
    requires Shaped(s) && s.size == Pow2(n) && t < |s.threads| && s.threads[t] == Remove(r) && g < s.size
    requires (r.Roll? || r.RollAfter?) && ThreadOk(s, t) && RemovePath(s.entries, r, n)
    ensures RemoveInBounds(s, r) && Balances(s, GoRemove(s, t, r), t, |s.entries|, g, n)
    ensures Path(s, GoRemove(s, t, r).threads[t], n)
  {
    hide Turn;
    if r.cur != r.h {
      PassesNext(if r.Roll? then s.entries[r.e].key else r.key, r.h, r.cur, g, n);
    }
  }

  lemma DisposeBalances(s: State, t: nat, r: RemovePc, g: nat, n: nat)
    requires Shaped(s) && s.size == Pow2(n) && t < |s.threads| && s.threads[t] == Remove(r) && g < s.size
    requires (r.Dispose? || r.DisposeAlone?) && ThreadOk(s, t) && RemovePath(s.entries, r, n)
    ensures RemoveInBounds(s, r) && Balances(s, GoRemove(s, t, r), t, r.e, g, n)
    ensures Path(GoRemove(s, t, r), GoRemove(s, t, r).threads[t], n)
  {
    hide Turn;
  }

  lemma ReclaimBalances(s: State, t: nat, r: RemovePc, g: nat, n: nat)
    requires Shaped(s) && s.size == Pow2(n) && t < |s.threads| && s.threads[t] == Remove(r) && g < s.size
    requires r.Mark? || r.Reclaim1? || r.Reclaim2? || r.ReclaimAlone?
    requires ThreadOk(s, t) && RemovePath(s.entries, r, n)
    ensures RemoveInBounds(s, r) && Balances(s, GoRemove(s, t, r), t, |s.entries|, g, n)
    ensures Path(s, GoRemove(s, t, r).threads[t], n)
  {
    hide Turn;
    if r.Reclaim2? && r.cont.ToErase? {
      PassesFirst(r.cont.key, g, n);
      FirstTurn(r.cont.key, n);
    }
  }

  // ---------------------------------------------------------------- looking, taking, evicting

  /** A thread takes an unreferenced entry over and starts on its path. */
  lemma TakeOverBalances(s: State, t: nat, h: nat, cont: Cont, g: nat, n: nat)
    requires Shaped(s) && s.size == Pow2(n) && t < |s.threads| && g < s.size && h < s.size
    requires !s.threads[t].Insert? && !s.threads[t].Remove? && s.handles[h].entry < |s.entries|
    requires cont.ToErase? ==> cont.h == h && KeyIn(s, h, cont.key)
    ensures Balances(s, TakeOver(s, t, h, cont), t, |s.entries|, g, n)
    ensures Path(s, TakeOver(s, t, h, cont).threads[t], n)
  {
    hide Turn;
    var k := s.entries[s.handles[h].entry].key;
    PassesFirst(k, g, n);
    FirstTurn(k, n);
  }

  lemma FindBalances(s: State, t: nat, f: FindPc, g: nat, n: nat)
    requires Shaped(s) && s.size == Pow2(n) && t < |s.threads| && f.h < s.size && g < s.size
    requires s.threads[t] == Lookup(f) || s.threads[t] == Erase(f)
    ensures Balances(s, DoGo(s, t), t, |s.entries|, g, n) && Path(DoGo(s, t), DoGo(s, t).threads[t], n)
  {
  }

  /** Other steps that change neither counts nor entries nor shares. */
  ghost predicate Idles(s: State, r: State, t: nat) {
    && t < |s.threads| && |r.threads| == |s.threads| && r.threads == s.threads[t := r.threads[t]] && r.size == s.size
    && r.entries == s.entries && |r.handles| == |s.handles|
    && forall h: nat :: h < |s.handles| ==> r.handles[h].disp == s.handles[h].disp
  }

  lemma IdlesBalance(s: State, r: State, t: nat, g: nat, n: nat)
    requires Idles(s, r, t) && g < |s.handles|
    requires Due(s.entries, s.threads[t], g, n) == Due(s.entries, r.threads[t], g, n)
    ensures Balances(s, r, t, |s.entries|, g, n)
  {
  }

  lemma ShareableStores(s: State, h: nat)
    requires Inv(s) && h < |s.handles| && Shareable(s.handles[h].meta)
    ensures s.handles[h].entry < |s.entries|
  {
    assert HandleOk(s, h);
  }

  lemma HiddenBalances(s: State, t: nat, k: TakePc, g: nat, n: nat)
    requires Shaped(s) && s.size == Pow2(n) && t < |s.threads| && s.threads[t] == Take(k) && g < s.size
    requires k.Hidden? && k.h < s.size && KeyIn(s, k.h, k.key)
    ensures Balances(s, GoTake(s, t, k), t, |s.entries|, g, n) && Path(s, GoTake(s, t, k).threads[t], n)
  {
    hide TakeOver, Turn, Passes, Pow2;
    TakeOverBalances(s, t, k.h, ToErase(k.key, k.p, k.h), g, n);
    if Refcount(k.seen) > 1 || s.handles[k.h].meta != k.seen { IdlesBalance(s, GoTake(s, t, k), t, g, n); }
  }

  lemma ReleasedBalances(s: State, t: nat, k: TakePc, g: nat, n: nat)
    requires Inv(s) && s.size == Pow2(n) && t < |s.threads| && s.threads[t] == Take(k) && g < s.size
    requires k.Released? && k.h < |s.handles|
    ensures Balances(s, GoTake(s, t, k), t, |s.entries|, g, n) && Path(s, GoTake(s, t, k).threads[t], n)
  {
    hide TakeOver, Turn, Passes, Pow2, Inv;
    InvThread(s, t);
    if Refcount(k.seen) == 0 && Shareable(k.seen) && s.handles[k.h].meta == k.seen && k.h < s.size {
      ShareableStores(s, k.h);
      TakeOverBalances(s, t, k.h, ToIdle, g, n);
    } else {
      IdlesBalance(s, GoTake(s, t, k), t, g, n);
    }
  }

  lemma AllBalances(s: State, t: nat, k: TakePc, g: nat, n: nat)
    requires Inv(s) && s.size == Pow2(n) && t < |s.threads| && s.threads[t] == Take(k) && g < s.size
    requires k.AllAt? || k.AllSeen? || k.Correct?
    ensures Shaped(s) && Balances(s, GoTake(s, t, k), t, |s.entries|, g, n) && Path(s, GoTake(s, t, k).threads[t], n)
  {
    hide TakeOver, Turn, Passes, Pow2, Inv;
    InvThread(s, t);
    if k.AllSeen? && s.handles[k.i].meta == k.seen {
      ShareableStores(s, k.i);
      TakeOverBalances(s, t, k.i, ToAll(k.i), g, n);
    } else {
      IdlesBalance(s, GoTake(s, t, k), t, g, n);
    }
  }

  lemma TakeBalances(s: State, t: nat, k: TakePc, g: nat, n: nat)
    requires Inv(s) && s.size == Pow2(n) && t < |s.threads| && s.threads[t] == Take(k) && g < s.size
    requires Path(s, s.threads[t], n)
    ensures InBounds(s, s.threads[t]) && Balances(s, GoTake(s, t, k), t, |s.entries|, g, n)
    ensures Path(s, GoTake(s, t, k).threads[t], n)
  {
    hide Inv, GoTake, Balances;
    InvThread(s, t);
    if k.Hidden? { HiddenBalances(s, t, k, g, n); }
    else if k.Released? { ReleasedBalances(s, t, k, g, n); }
    else { AllBalances(s, t, k, g, n); }
  }

  lemma SeenBalances(s: State, t: nat, v: EvictPc, g: nat, n: nat)
    requires Inv(s) && s.size == Pow2(n) && t < |s.threads| && s.threads[t] == Evict(v) && g < s.size && v.Seen?
    ensures Shaped(s) && Balances(s, GoEvict(s, t, v), t, |s.entries|, g, n) && Path(s, GoEvict(s, t, v).threads[t], n)
  {
    hide TakeOver, Turn, Passes, Pow2, Inv;
    InvThread(s, t);
    var h := (v.ev.ptr + v.ev.i) % s.size;
    if s.handles[h].meta == v.seen && !(v.seen.st.Visible? && v.seen.acq > 0) {
      ShareableStores(s, h);
      TakeOverBalances(s, t, h, ToEvict(v.ev), g, n);
    } else {
      IdlesBalance(s, GoEvict(s, t, v), t, g, n);
    }
  }

  lemma EvictBalances(s: State, t: nat, v: EvictPc, g: nat, n: nat)
    requires Inv(s) && s.size == Pow2(n) && t < |s.threads| && s.threads[t] == Evict(v) && g < s.size
    ensures Shaped(s) && Balances(s, GoEvict(s, t, v), t, |s.entries|, g, n) && Path(s, GoEvict(s, t, v).threads[t], n)
  {
    hide Turn, Passes, Pow2, Inv;
    InvThread(s, t);
    if v.Seen? {
      SeenBalances(s, t, v, g, n);
    } else {
      IdlesBalance(s, GoEvict(s, t, v), t, g, n);
    }
  }

  // ---------------------------------------------------------------- every step counts

  /** What InBounds says of the entry a removal is about. */
  predicate Within(es: seq<Entry>, pc: Pc) {
    pc.Remove? && (pc.r.Roll? || pc.r.Dispose?) ==> pc.r.e < |es|
  }

  ghost predicate SameKeys(s: State, r: State) {
    && |s.entries| <= |r.entries| && |s.handles| <= |r.handles|
    && forall e: nat {:trigger r.entries[e]} :: e < |s.entries| ==> r.entries[e].key == s.entries[e].key
  }

  /** Only who holds a reference to an entry that is to be erased depends on a handle. */
  ghost predicate SameHandle(s: State, r: State, pc: Pc) {
    pc.Take? && pc.k.Hidden? && pc.k.h < |s.handles| ==>
      pc.k.h < |r.handles| && r.handles[pc.k.h].entry == s.handles[pc.k.h].entry
  }

  lemma PathSame(s: State, r: State, pc: Pc, n: nat)
    requires Path(s, pc, n) && SameKeys(s, r) && Within(s.entries, pc) && SameHandle(s, r, pc)
    ensures Path(r, pc, n)
  {
    hide Turn;
  }

  /** Nobody writes into a handle that somebody else holds a reference to. */
  lemma HeldHandleStays(s: State, t: nat, u: nat)
    requires Inv(s) && t < |s.threads| && u < |s.threads| && t != u && s.threads[u].Take? && s.threads[u].k.Hidden?
    requires s.threads[t].Insert? && s.threads[t].n.Write?
    ensures s.threads[t].n.h != s.threads[u].k.h
  {
    hide Inv, Claims;
    var h := s.threads[u].k.h;
    if s.threads[t].n.h == h {
      InvReady(s, u, h, |s.entries|);
      ClaimsOfTwo(s, t, u, h);
      assert false;
    }
  }

  lemma TakeKeepsHandles(s: State, t: nat, k: TakePc)
    requires Shaped(s) && t < |s.threads| && ((k.Hidden? || k.Released?) ==> k.h < |s.handles|)
    ensures var r := GoTake(s, t, k);
      |r.handles| == |s.handles| && forall h: nat :: h < |s.handles| ==> r.handles[h].entry == s.handles[h].entry
  {
  }

  /** Except for the writing of an insertion, a step leaves what handles store alone. */
  lemma HandlesStay(s: State, t: nat, h: nat)
    requires Shaped(s) && t < |s.threads| && InBounds(s, s.threads[t]) && h < |s.handles|
    ensures h < |DoGo(s, t).handles|
    ensures !(s.threads[t].Insert? && s.threads[t].n.Write? && s.threads[t].n.h == h) ==>
      DoGo(s, t).handles[h].entry == s.handles[h].entry
  {
    match s.threads[t]
    case Take(k) => TakeKeepsHandles(s, t, k);
    case Remove(r) => RemoveKeepsHandles(s, t, r, h);
    case Insert(p) => InsertKeepsHandles(s, t, p, h);
    case _ =>
  }

  lemma RemoveKeepsHandles(s: State, t: nat, r: RemovePc, h: nat)
    requires Shaped(s) && t < |s.threads| && RemoveInBounds(s, r) && h < |s.handles|
    ensures h < |GoRemove(s, t, r).handles| && GoRemove(s, t, r).handles[h].entry == s.handles[h].entry
  {
  }

  lemma InsertKeepsHandles(s: State, t: nat, p: InsertPc, h: nat)
    requires Shaped(s) && t < |s.threads| && s.threads[t] == Insert(p) && InBounds(s, s.threads[t]) && h < |s.handles|
    ensures h < |DoGo(s, t).handles|
    ensures !(p.Write? && p.h == h) ==> DoGo(s, t).handles[h].entry == s.handles[h].entry
  {
  }

  lemma InsertCounts(s: State, t: nat, p: InsertPc, g: nat, n: nat) returns (e0: nat)
    requires Inv(s) && s.size == Pow2(n) && t < |s.threads| && s.threads[t] == Insert(p) && g < s.size
    requires InBounds(s, s.threads[t]) && InsertPath(p, n)
    ensures Balances(s, DoGo(s, t), t, e0, g, n) && Path(s, DoGo(s, t).threads[t], n)
  {
    hide GoPlace, GoBack, GoCharge, Path, Balances, Inv, InsertPath;
    InvThread(s, t);
    e0 := |s.entries|;
    if p.Displace? { DisplaceBalances(s, t, p, g, n); }
    else if p.Match? { MatchBalances(s, t, p, g, n); }
    else if p.Publish? { PublishBalances(s, t, p, g, n); e0 := p.ins.e; }
    else if Placing(p) { ProbeBalances(s, t, p, g, n); }
    else if p.Lost? || p.Back? { BackBalances(s, t, p, g, n); }
    else if Backing(p) { SettleBalances(s, t, p, g, n); e0 := p.ins.e; }
    else { ChargeBalances(s, t, p, g, n); e0 := p.ins.e; }
  }

  lemma RemoveCounts(s: State, t: nat, r: RemovePc, g: nat, n: nat) returns (e0: nat)
    requires Inv(s) && s.size == Pow2(n) && t < |s.threads| && s.threads[t] == Remove(r) && g < s.size
    requires InBounds(s, s.threads[t]) && RemovePath(s.entries, r, n)
    ensures Balances(s, DoGo(s, t), t, e0, g, n) && Path(DoGo(s, t), DoGo(s, t).threads[t], n)
  {
    hide GoRemove, Path, Balances, Inv, RemovePath;
    InvThread(s, t);
    e0 := |s.entries|;
    if r.Dispose? || r.DisposeAlone? {
      DisposeBalances(s, t, r, g, n);
      e0 := r.e;
    } else {
      if r.Roll? || r.RollAfter? { RollBalances(s, t, r, g, n); } else { ReclaimBalances(s, t, r, g, n); }
      NextPath(s, t, r, n);
    }
  }

  /** These steps change no entry. */
  lemma NextPath(s: State, t: nat, r: RemovePc, n: nat)
    requires Shaped(s) && t < |s.threads| && RemoveInBounds(s, r) && !r.Dispose? && !r.DisposeAlone?
    requires Path(s, GoRemove(s, t, r).threads[t], n)
    ensures Path(GoRemove(s, t, r), GoRemove(s, t, r).threads[t], n)
  {
    hide Turn;
  }

  /** Thread t has moved, and keys are as they were. */
  ghost predicate Moved(s: State, r: State, t: nat) {
    && t < |s.threads| && |r.threads| == |s.threads| && r.threads == s.threads[t := r.threads[t]] && r.size == s.size
    && SameKeys(s, r)
  }

  /** And it is on its path. */
  ghost predicate Goes(s: State, r: State, t: nat, n: nat) {
    Moved(s, r, t) && Path(r, r.threads[t], n)
  }

  /** Every step of a thread keeps g's count exact, and its own path. */
  lemma GoCounts(s: State, t: nat, g: nat, n: nat)
    requires Shaped(s) && t < |s.threads| && InBounds(s, s.threads[t])
    requires Inv(s) && Paths(s, n) && g < s.size && Counted(s, g, n)
    ensures Counted(DoGo(s, t), g, n) && Goes(s, DoGo(s, t), t, n)
  {
    hide GoLookup, GoErase, GoTake, GoRemove, GoEvict, GoPlace, GoBack, GoCharge, Path, Counted, Inv;
    InvThread(s, t);
    var r, e0 := DoGo(s, t), |s.entries|;
    PathAt(s, t, n);
    match s.threads[t] {
      case Idle => IdleBalances(s, t, g, n);
      case Lookup(f) => FindBalances(s, t, f, g, n);
      case Erase(f) => FindBalances(s, t, f, g, n);
      case Take(k) => TakeBalances(s, t, k, g, n); TakePath(s, t, k, n);
      case Evict(v) => EvictBalances(s, t, v, g, n); EvictPath(s, t, v, n);
      case Remove(p) => e0 := RemoveCounts(s, t, p, g, n);
      case Insert(p) => e0 := InsertCounts(s, t, p, g, n); InsertPathAfter(s, t, p, n);
    }
    assert Balances(s, r, t, e0, g, n);
    AllInBounds(s);
    BalancesKeep(s, r, t, e0, g, n);
  }

  lemma IdleBalances(s: State, t: nat, g: nat, n: nat)
    requires Shaped(s) && t < |s.threads| && s.threads[t].Idle? && g < s.size
    ensures Balances(s, DoGo(s, t), t, |s.entries|, g, n) && Path(DoGo(s, t), DoGo(s, t).threads[t], n)
  {
  }

  lemma PathAt(s: State, t: nat, n: nat)
    requires Paths(s, n) && t < |s.threads|
    ensures Path(s, s.threads[t], n)
    ensures s.threads[t].Insert? ==> InsertPath(s.threads[t].n, n)
    ensures s.threads[t].Remove? ==> RemovePath(s.entries, s.threads[t].r, n)
  {
  }

  lemma AllInBounds(s: State)
    requires Inv(s)
    ensures forall u: nat {:trigger s.threads[u]} :: u < |s.threads| ==> InBounds(s, s.threads[u])
  {
    forall u: nat | u < |s.threads| ensures InBounds(s, s.threads[u]) { assert ThreadOk(s, u); }
  }

  lemma TakePath(s: State, t: nat, k: TakePc, n: nat)
    requires Shaped(s) && t < |s.threads| && ((k.Hidden? || k.Released?) ==> k.h < |s.handles|)
    requires Path(s, GoTake(s, t, k).threads[t], n)
    ensures Path(GoTake(s, t, k), GoTake(s, t, k).threads[t], n)
  {
    hide Turn;
  }

  lemma EvictPath(s: State, t: nat, v: EvictPc, n: nat)
    requires Shaped(s) && t < |s.threads| && Path(s, GoEvict(s, t, v).threads[t], n)
    ensures Path(GoEvict(s, t, v), GoEvict(s, t, v).threads[t], n)
  {
    hide Turn;
  }

  lemma InsertPathAfter(s: State, t: nat, p: InsertPc, n: nat)
    requires Shaped(s) && t < |s.threads| && s.threads[t] == Insert(p) && InBounds(s, s.threads[t])
    requires t < |DoGo(s, t).threads| && Path(s, DoGo(s, t).threads[t], n)
    ensures Path(DoGo(s, t), DoGo(s, t).threads[t], n)
  {
    hide Turn;
  }

  /** The others stay on their paths. */
  lemma OthersStay(s: State, t: nat, u: nat, n: nat)
    requires Inv(s) && Paths(s, n) && t < |s.threads| && u < |s.threads| && u != t
    requires InBounds(s, s.threads[t]) && Moved(s, DoGo(s, t), t)
    ensures Path(DoGo(s, t), s.threads[u], n)
  {
    hide DoGo, Path, Inv;
    PathAt(s, u, n);
    InvThread(s, u);
    var r := DoGo(s, t);
    if s.threads[u].Take? && s.threads[u].k.Hidden? && s.threads[u].k.h < |s.handles| {
      if s.threads[t].Insert? && s.threads[t].n.Write? { HeldHandleStays(s, t, u); }
      HandlesStay(s, t, s.threads[u].k.h);
    }
    PathSame(s, r, s.threads[u], n);
  }

  // ---------------------------------------------------------------- starting an operation

  lemma StartCounts(s: State, t: nat, call: Call, g: nat, n: nat)
    requires Inv(s) && s.size == Pow2(n) && t < |s.threads| && s.threads[t].Idle? && CallOk(s, call)
    requires g < s.size && Counted(s, g, n)
    ensures Shaped(s) && Counted(DoStart(s, t, call), g, n)
  {
    hide Inv, Counted, Pow2;
    InvThread(s, t);
    AllInBounds(s);
    var r := DoStart(s, t, call);
    match call
    case CallInsert(key, c, countdown, wantsHandle, capacity, strict) =>
      StartInsertCounts(s, t, Ins(|s.entries|, key, c, countdown, wantsHandle, true, false,
                                  s.occupancy >= s.occLimit, capacity, strict), g, n);
    case CallStandalone(key, c, uncharged, capacity, strict) =>
      StartInsertCounts(s, t, Ins(|s.entries|, key, c, 1, true, false, uncharged, false, capacity, strict), g, n);
    case _ => CallBalances(s, t, call, g, n); BalancesKeep(s, r, t, |s.entries|, g, n);
  }

  lemma StartMoves(s: State, t: nat, call: Call, n: nat)
    requires Shaped(s) && t < |s.threads| && s.threads[t].Idle? && CallOk(s, call)
    ensures Moved(s, DoStart(s, t, call), t) && Path(DoStart(s, t, call), DoStart(s, t, call).threads[t], n)
    ensures forall h: nat :: h < |s.handles| ==> DoStart(s, t, call).handles[h].entry == s.handles[h].entry
  {
    hide Turn, Pow2, DoStartInsert, Path, Moved;
    match call
    case CallInsert(key, c, countdown, wantsHandle, capacity, strict) =>
      StartInsertMoves(s, t, Ins(|s.entries|, key, c, countdown, wantsHandle, true, false,
                                 s.occupancy >= s.occLimit, capacity, strict), n);
    case CallStandalone(key, c, uncharged, capacity, strict) =>
      StartInsertMoves(s, t, Ins(|s.entries|, key, c, 1, true, false, uncharged, false, capacity, strict), n);
    case _ => CallMoves(s, t, call, n);
  }

  lemma StartInsertMoves(s: State, t: nat, ins: Ins, n: nat)
    requires Shaped(s) && t < |s.threads|
    ensures var r := DoStartInsert(s, t, ins); Moved(s, r, t) && Path(r, r.threads[t], n) && r.handles == s.handles
  {
    hide Turn, Pow2;
  }

  lemma CallMoves(s: State, t: nat, call: Call, n: nat)
    requires Shaped(s) && t < |s.threads| && s.threads[t].Idle? && CallOk(s, call)
    requires !call.CallInsert? && !call.CallStandalone?
    ensures Moved(s, DoStart(s, t, call), t) && Path(DoStart(s, t, call), DoStart(s, t, call).threads[t], n)
    ensures forall h: nat :: h < |s.handles| ==> DoStart(s, t, call).handles[h].entry == s.handles[h].entry
  {
    hide Path, Moved, DoRelease;
    if call.CallRelease? {
      ReleaseMoves(s, t, call.h, call.e, call.useful, call.eraseIfLast, n);
    } else {
      SameEntriesMoved(s, DoStart(s, t, call), t);
      var pc := DoStart(s, t, call).threads[t];
      NoPath(DoStart(s, t, call), pc, n);
    }
  }

  lemma SameEntriesMoved(s: State, r: State, t: nat)
    requires t < |s.threads| && |r.threads| == |s.threads| && r.threads == s.threads[t := r.threads[t]]
    requires r.size == s.size && r.entries == s.entries && |r.handles| == |s.handles|
    ensures Moved(s, r, t)
  {
  }

  lemma NoPath(s: State, pc: Pc, n: nat)
    requires pc.Idle? || pc.Lookup? || pc.Erase? || pc.Evict? || (pc.Take? && !pc.k.Hidden?)
    ensures Path(s, pc, n)
  {
  }

  lemma ReleaseMoves(s: State, t: nat, h: nat, e: nat, useful: bool, eraseIfLast: bool, n: nat)
    requires t < |s.threads| && h < |s.handles|
    ensures var r := DoRelease(s, t, h, e, useful, eraseIfLast);
      && Moved(s, r, t) && Path(r, r.threads[t], n)
      && forall j: nat :: j < |s.handles| ==> r.handles[j].entry == s.handles[j].entry
  {
    hide Path, Moved;
    var r := DoRelease(s, t, h, e, useful, eraseIfLast);
    SameEntriesMoved(s, r, t);
    NoPath(r, r.threads[t], n);
  }

  lemma CallBalances(s: State, t: nat, call: Call, g: nat, n: nat)
    requires Shaped(s) && t < |s.threads| && s.threads[t].Idle? && CallOk(s, call) && g < s.size
    requires !call.CallInsert? && !call.CallStandalone?
    ensures Balances(s, DoStart(s, t, call), t, |s.entries|, g, n)
  {
  }

  lemma StartInsertCounts(s: State, t: nat, ins: Ins, g: nat, n: nat)
    requires t < |s.threads| && s.threads[t].Idle? && Counted(s, g, n)
    requires forall u: nat {:trigger s.threads[u]} :: u < |s.threads| ==> InBounds(s, s.threads[u])
    ensures Counted(DoStartInsert(s, t, ins), g, n)
  {
    hide Stored;
    var r := DoStartInsert(s, t, ins);
    var x := Entry(ins.key, ins.c, With(t), 0);
    var ds, d := Dues(s.entries, s.threads, g, n), Due(r.entries, r.threads[t], g, n);
    assert d == 0 && ds[t] == 0;
    forall u: nat | u < |s.threads| && u != t ensures Due(r.entries, r.threads[u], g, n) == ds[u] {
      assert InBounds(s, s.threads[u]);
      DueSame(s.entries, r.entries, s.threads[u], g, n);
    }
    assert Dues(r.entries, r.threads, g, n) == ds;
    assert Stored(x, g, n) == 0 by { NotStored(x, g, n); }
    assert Storeds(r.entries, g, n) == Storeds(s.entries, g, n) + [0];
    SumAppend(Storeds(s.entries, g, n), 0);
  }

  lemma NotStored(x: Entry, g: nat, n: nat)
    requires !x.loc.InHandle?
    ensures Stored(x, g, n) == 0
  {
  }

  lemma StartStays(s: State, r: State, t: nat, u: nat, n: nat)
    requires Inv(s) && Paths(s, n) && u < |s.threads| && u != t && Moved(s, r, t)
    requires forall h: nat :: h < |s.handles| ==> r.handles[h].entry == s.handles[h].entry
    ensures Path(r, s.threads[u], n)
  {
    hide Path, Inv;
    PathAt(s, u, n);
    InvThread(s, u);
    PathSame(s, r, s.threads[u], n);
  }

  lemma StepCounts(s: State, step: Step, g: nat, n: nat)
    requires Inv(s) && Paths(s, n) && Enabled(s, step) && g < s.size && Counted(s, g, n)
    ensures Paths(Apply(s, step), n) && Counted(Apply(s, step), g, n) && Apply(s, step).size == s.size
  {
    hide DoGo, DoStart, Path, Inv, Counted;
    var r := Apply(s, step);
    match step {
      case Start(t, call) =>
        StartCounts(s, t, call, g, n);
        StartMoves(s, t, call, n);
        forall u: nat | u < |s.threads| && u != t ensures Path(r, s.threads[u], n) { StartStays(s, r, t, u, n); }
      case Go(t) =>
        GoCounts(s, t, g, n);
        forall u: nat | u < |s.threads| && u != t ensures Path(r, s.threads[u], n) { OthersStay(s, t, u, n); }
    }
    forall u: nat | u < |r.threads| ensures Path(r, r.threads[u], n) {
      if u != step.t { assert r.threads[u] == s.threads[u]; }
    }
  }

  // ---------------------------------------------------------------- what holds on every run

  lemma InitCounts(s: State, g: nat, n: nat)
    requires Init(s) && s.size == Pow2(n) && g < s.size
    ensures Paths(s, n) && Counted(s, g, n)
  {
    SumZero(Dues(s.entries, s.threads, g, n));
    SumZero(Storeds(s.entries, g, n));
  }

  lemma {:induction false} RunCounts(trace: seq<State>, steps: seq<Step>, i: nat, g: nat, n: nat)
    requires Run(trace, steps) && i < |trace| && trace[0].size == Pow2(n) && g < Pow2(n)
    ensures Inv(trace[i]) && trace[i].size == Pow2(n) && Paths(trace[i], n) && Counted(trace[i], g, n)
  {
    hide Inv, Paths, Counted, Apply, Enabled, Pow2;
    RunInv(trace, steps, i);
    if i == 0 {
      InitCounts(trace[0], g, n);
    } else {
      RunCounts(trace, steps, i - 1, g, n);
      StepCounts(trace[i - 1], steps[i - 1], g, n);
    }
  }

  /** Before it comes to h, a path passes over g at most once: exactly if g's turn is before h's. */
  lemma PassesOnce(k: Key, h: nat, g: nat, n: nat)
    requires h < Pow2(n) && g < Pow2(n)
    ensures Passes(k, h, g, n) == B(Turn(k, g, n) < Turn(k, h, n))
  {
    SeenOnce(k, Turn(k, h, n), g, n);
  }

  lemma {:induction false} SeenOnce(k: Key, i: nat, g: nat, n: nat)
    requires i <= Pow2(n) && g < Pow2(n)
    ensures Seen(k, i, g, Pow2(n)) == B(Turn(k, g, n) < i)
  {
    if i > 0 {
      SeenOnce(k, i - 1, g, n);
      if Probe(k, i - 1, Pow2(n)) == g { TurnOfProbe(k, i - 1, n); }
    }
  }

  /** At every atomic step a slot's displacement count is the number of stored entries whose path passes over it, and
      the threads' shares. */
  lemma DisplacementsExact(trace: seq<State>, steps: seq<Step>, i: nat, g: nat, n: nat)
    requires Run(trace, steps) && i < |trace| && trace[0].size == Pow2(n) && g < Pow2(n)
    ensures g < |trace[i].handles|
    ensures trace[i].handles[g].disp
         == Sum(Storeds(trace[i].entries, g, n)) + Sum(Dues(trace[i].entries, trace[i].threads, g, n))
  {
    RunCounts(trace, steps, i, g, n);
  }

  /** With every thread idle the count is that of the stored entries alone; and if none is in the table it is zero, as
      the destructor of the table has it. */
  lemma QuietDisplacements(trace: seq<State>, steps: seq<Step>, i: nat, g: nat, n: nat)
    requires Run(trace, steps) && i < |trace| && trace[0].size == Pow2(n) && g < Pow2(n)
    requires forall t: nat :: t < |trace[i].threads| ==> trace[i].threads[t].Idle?
    ensures g < |trace[i].handles| && trace[i].handles[g].disp == Sum(Storeds(trace[i].entries, g, n))
    ensures (forall e: nat :: e < |trace[i].entries| ==>
               !(trace[i].entries[e].loc.InHandle? && trace[i].entries[e].loc.h < Pow2(n))) ==>
      trace[i].handles[g].disp == 0
  {
    var s := trace[i];
    RunCounts(trace, steps, i, g, n);
    SumZero(Dues(s.entries, s.threads, g, n));
    if forall e: nat :: e < |s.entries| ==> !(s.entries[e].loc.InHandle? && s.entries[e].loc.h < Pow2(n)) {
      SumZero(Storeds(s.entries, g, n));
    }
  }
}
