/**
 Erase in the concurrent clock table, if nobody interferes.
 */
module ClockSoloErase {
  import opened Basics
  import opened ClockProbe
  import opened ClockMachine
  import opened ClockOwnership
  import opened ClockSolo
  import opened ClockSoloLookup
  import opened Sums

  // ---------------------------------------------------------------- rolling displacements back

  /** The counts of the slots of k's path from cur on and before h are lowered. */
  ghost function Lowered(hs: seq<Handle>, k: Key, cur: nat, h: nat, n: nat): (rs: seq<Handle>)
    requires cur < Pow2(n) && h < Pow2(n)
    ensures |rs| == |hs|
  {
    seq(|hs|, g requires 0 <= g < |hs| =>
      if g < Pow2(n) && Turn(k, cur, n) <= Turn(k, g, n) < Turn(k, h, n) then hs[g].(disp := hs[g].disp - 1) else hs[g])
  }

  lemma LoweredNone(hs: seq<Handle>, k: Key, h: nat, n: nat)
    requires h < Pow2(n)
    ensures Lowered(hs, k, h, h, n) == hs
  {
  }

  /** One slot, and then the rest. */
  lemma LoweredMore(hs: seq<Handle>, k: Key, cur: nat, h: nat, n: nat)
    requires cur < Pow2(n) <= |hs| && h < Pow2(n) && Turn(k, cur, n) < Turn(k, h, n)
    ensures var next := Advance(k, cur, Pow2(n));
      && Turn(k, next, n) == Turn(k, cur, n) + 1
      && Lowered(hs[cur := hs[cur].(disp := hs[cur].disp - 1)], k, next, h, n) == Lowered(hs, k, cur, h, n)
  {
    hide Turn, Advance;
    NextTurn(k, cur, n);
    var next := Advance(k, cur, Pow2(n));
    var a, b := Lowered(hs[cur := hs[cur].(disp := hs[cur].disp - 1)], k, next, h, n), Lowered(hs, k, cur, h, n);
    forall g | 0 <= g < |hs| ensures a[g] == b[g] {
      if g < Pow2(n) && g != cur && Turn(k, g, n) == Turn(k, cur, n) { SameTurn(k, g, cur, n); }
    }
  }

  /** The rollback of Erase, after the slot is released. */
  lemma {:induction false} RollsAfter(s: State, t: nat, h: nat, k: Key, cur: nat, p: nat, n: nat) returns (a: nat)
    requires Shaped(s) && s.size == Pow2(n) && t < |s.threads| && h < s.size && cur < s.size
    requires Turn(k, cur, n) <= Turn(k, h, n)
    ensures Goes(SetPc(s, t, Remove(RollAfter(h, k, cur, p))), t, a,
                 SetPc(s.(handles := Lowered(s.handles, k, cur, h, n)), t, Erase(Next(k, p, h))))
    decreases Turn(k, h, n) - Turn(k, cur, n)
  {
    hide Goes, Turn, Advance, Lowered, Pow2;
    var s0 := SetPc(s, t, Remove(RollAfter(h, k, cur, p)));
    if cur == h {
      LoweredNone(s.handles, k, h, n);
      SetTwice(s, t, Remove(RollAfter(h, k, cur, p)), Erase(Next(k, p, h)));
      OneGo(s0, t);
      a := 1;
    } else {
      if Turn(k, cur, n) == Turn(k, h, n) { SameTurn(k, cur, h, n); }
      LoweredMore(s.handles, k, cur, h, n);
      var next := Advance(k, cur, Pow2(n));
      var m := AddDisp(s, cur, -1);
      SetTwice(m, t, Remove(RollAfter(h, k, cur, p)), Remove(RollAfter(h, k, next, p)));
      OneGo(s0, t);
      var b := RollsAfter(m, t, h, k, next, p, n);
      GoesThen(s0, t, 1, SetPc(m, t, Remove(RollAfter(h, k, next, p))), b,
               SetPc(s.(handles := Lowered(s.handles, k, cur, h, n)), t, Erase(Next(k, p, h))));
      a := 1 + b;
    }
  }

  // ---------------------------------------------------------------- freeing an entry

  /** e is disposed of and h is empty again; both totals go down. */
  function Emptied(s: State, h: nat, e: nat): State
    requires h < |s.handles| && e < |s.entries|
  {
    SetMeta(DisposeOf(s, e), h, EMPTY).(occupancy := s.occupancy - 1, usage := s.usage - s.entries[e].charge)
  }

  /** From the take-over of Erase to its rollback. */
  lemma FreesTaken(s: State, t: nat, k: Key, p: nat, h: nat, e: nat)
    requires Shaped(s) && t < |s.threads| && h < s.size && e < |s.entries|
    ensures Goes(SetPc(s, t, Remove(Dispose(h, e, ToErase(k, p, h)))), t, 4,
                 SetPc(Emptied(s, h, e), t, Remove(RollAfter(h, k, First(k, s.size), p))))
  {
    hide Goes, First;
    var cont, c := ToErase(k, p, h), s.entries[e].charge;
    var d, f := DisposeOf(s, e), SetMeta(DisposeOf(s, e), h, EMPTY);
    var s0, s1 := SetPc(s, t, Remove(Dispose(h, e, cont))), SetPc(d, t, Remove(Mark(h, c, cont)));
    SetTwice(d, t, Remove(Dispose(h, e, cont)), Remove(Mark(h, c, cont)));
    OneGo(s0, t);
    var s2 := SetPc(f, t, Remove(Reclaim1(h, c, cont)));
    SetTwice(f, t, Remove(Mark(h, c, cont)), Remove(Reclaim1(h, c, cont)));
    OneGo(s1, t);
    GoesThen(s0, t, 1, s1, 1, s2);
    var o := f.(occupancy := s.occupancy - 1);
    var s3 := SetPc(o, t, Remove(Reclaim2(h, c, cont)));
    SetTwice(o, t, Remove(Reclaim1(h, c, cont)), Remove(Reclaim2(h, c, cont)));
    OneGo(s2, t);
    GoesThen(s0, t, 2, s2, 1, s3);
    var m := Emptied(s, h, e);
    var roll := Remove(RollAfter(h, k, First(k, s.size), p));
    var s4 := SetPc(m, t, roll);
    SetTwice(m, t, Remove(Reclaim2(h, c, cont)), roll);
    OneGo(s3, t);
    GoesThen(s0, t, 3, s3, 1, s4);
  }

  /** And to the end of that. */
  lemma FreesErased(s: State, t: nat, k: Key, p: nat, h: nat, e: nat, n: nat) returns (a: nat)
    requires Shaped(s) && s.size == Pow2(n) && t < |s.threads| && h < s.size && e < |s.entries|
    ensures var m := Emptied(s, h, e);
      Goes(SetPc(s, t, Remove(Dispose(h, e, ToErase(k, p, h)))), t, a,
           SetPc(m.(handles := Lowered(m.handles, k, First(k, s.size), h, n)), t, Erase(Next(k, p, h))))
  {
    hide Goes, Turn, Lowered, Pow2, First;
    FreesTaken(s, t, k, p, h, e);
    FirstTurn(k, n);
    var m := Emptied(s, h, e);
    var b := RollsAfter(m, t, h, k, First(k, s.size), p, n);
    a := 4 + b;
    GoesThen(SetPc(s, t, Remove(Dispose(h, e, ToErase(k, p, h)))), t, 4,
             SetPc(m, t, Remove(RollAfter(h, k, First(k, s.size), p))), b,
             SetPc(m.(handles := Lowered(m.handles, k, First(k, s.size), h, n)), t, Erase(Next(k, p, h))));
  }

  // ---------------------------------------------------------------- one probe

  /** What Erase makes of a handle, displacement counts aside: a visible entry for the key is gone, or hidden while it
      is referenced; anything else stays, but for junk in the acquire counter. */
  predicate After(a: Handle, b: Handle, hit: bool) {
    && b.entry == a.entry
    && if !hit then JunkAt(a.(disp := b.disp), b)
       else b.meta == if Refcount(a.meta) == 0 then EMPTY else a.meta.(st := Invisible)
  }

  predicate Gone1(a: Entry, b: Entry) {
    b == a.(loc := Gone, disposals := a.disposals + 1)
  }

  /** The handle of e, if it is a slot with an unreferenced visible entry for the key. */
  predicate Frees(s: State, e: nat, h: nat, key: Key) {
    h < s.size && Hit(s, h, key) && s.handles[h].entry == e && Refcount(s.handles[h].meta) == 0
  }

  /** Only h was dealt with. */
  predicate ErasedAt(s: State, r: State, h: nat, key: Key) {
    && r.size == s.size && r.occLimit == s.occLimit && r.base == s.base && r.threads == s.threads && r.users == s.users
    && |r.handles| == |s.handles| && |r.entries| == |s.entries|
    && h < |s.handles| && After(s.handles[h], r.handles[h], Hit(s, h, key))
    && (forall g: nat :: g < |s.handles| && g != h ==> r.handles[g] == s.handles[g].(disp := r.handles[g].disp))
    && (forall e: nat :: e < |s.entries| ==>
          if Frees(s, e, h, key) then Gone1(s.entries[e], r.entries[e]) else r.entries[e] == s.entries[e])
  }

  lemma EraseMisses(s: State, t: nat, key: Key, p: nat, h: nat) returns (n: nat, m: State)
    requires Shaped(s) && t < |s.threads| && h < s.size && !Hit(s, h, key)
    ensures m == s || (!Shareable(s.handles[h].meta) && m == AddRef(s, h, 1))
    ensures Goes(SetPc(s, t, Erase(Acquire(key, p, h))), t, n, SetPc(m, t, Erase(Next(key, p, h))))
  {
    hide Goes;
    var s0, f := SetPc(s, t, Erase(Acquire(key, p, h))), AfterAcquire(s.handles[h].meta, key, p, h);
    var s1 := SetPc(AddRef(s, h, 1), t, Erase(f));
    SetTwice(AddRef(s, h, 1), t, Erase(Acquire(key, p, h)), Erase(f));
    assert Apply(s0, Go(t)) == s1;
    OneGo(s0, t);
    if f.Next? {
      n, m := 1, AddRef(s, h, 1);
    } else {
      m := s;
      SetTwice(AddRef(s, h, 1), t, Erase(f), Erase(Next(key, p, h)));
      AddRefBack(s, h, 1);
      assert Apply(s1, Go(t)) == SetPc(s, t, Erase(Next(key, p, h)));
      OneGo(s1, t);
      GoesThen(s0, t, 1, s1, 1, SetPc(s, t, Erase(Next(key, p, h))));
      n := 2;
    }
  }

  /** No count is changed from h on, on the path of the key. */
  ghost predicate SameAhead(s: State, r: State, key: Key, p: nat, n: nat) {
    && s.size == Pow2(n) <= |s.handles| && |r.handles| == |s.handles|
    && forall g: nat :: g < s.size && Turn(key, g, n) >= p ==> r.handles[g].disp == s.handles[g].disp
  }

  lemma JunkIsErased(s: State, m: State, h: nat, key: Key)
    requires h < |s.handles| && !Hit(s, h, key) && (m == s || (!Shareable(s.handles[h].meta) && m == AddRef(s, h, 1)))
    ensures ErasedAt(s, m, h, key) && forall g: nat :: g < |s.handles| ==> m.handles[g].disp == s.handles[g].disp
  {
  }

  /** The entry is found and hidden; the thread has a reference to it. */
  lemma Hides(s: State, t: nat, key: Key, p: nat, h: nat)
    requires Shaped(s) && t < |s.threads| && h < s.size && Hit(s, h, key)
    ensures var m := s.handles[h].meta.(st := Invisible, acq := s.handles[h].meta.acq + 1);
      Goes(SetPc(s, t, Erase(Acquire(key, p, h))), t, 2, SetPc(SetMeta(s, h, m), t, Take(Hidden(key, p, h, m))))
  {
    hide Goes;
    var m := s.handles[h].meta.(st := Invisible, acq := s.handles[h].meta.acq + 1);
    var s0, s1 := SetPc(s, t, Erase(Acquire(key, p, h))), SetPc(AddRef(s, h, 1), t, Erase(Compare(key, p, h)));
    SetTwice(AddRef(s, h, 1), t, Erase(Acquire(key, p, h)), Erase(Compare(key, p, h)));
    OneGo(s0, t);
    var s2 := SetPc(SetMeta(s, h, m), t, Take(Hidden(key, p, h, m)));
    assert SetMeta(AddRef(s, h, 1), h, m).handles == SetMeta(s, h, m).handles;
    SetTwice(SetMeta(s, h, m), t, Erase(Compare(key, p, h)), Take(Hidden(key, p, h, m)));
    assert Apply(s1, Go(t)) == s2;
    OneGo(s1, t);
    GoesThen(s0, t, 1, s1, 1, s2);
  }

  /** It is referenced elsewhere and stays. */
  lemma LeavesHidden(s: State, t: nat, key: Key, p: nat, h: nat)
    requires Shaped(s) && t < |s.threads| && h < s.size && Refcount(s.handles[h].meta) > 0
    ensures var m := s.handles[h].meta.(st := Invisible, acq := s.handles[h].meta.acq + 1);
      Goes(SetPc(SetMeta(s, h, m), t, Take(Hidden(key, p, h, m))), t, 1,
           SetPc(SetMeta(s, h, s.handles[h].meta.(st := Invisible)), t, Erase(Next(key, p, h))))
  {
    hide Goes;
    var m := s.handles[h].meta.(st := Invisible, acq := s.handles[h].meta.acq + 1);
    var x := SetMeta(s, h, s.handles[h].meta.(st := Invisible));
    assert AddRef(SetMeta(s, h, m), h, -1).handles == x.handles;
    SetTwice(x, t, Take(Hidden(key, p, h, m)), Erase(Next(key, p, h)));
    OneGo(SetPc(SetMeta(s, h, m), t, Take(Hidden(key, p, h, m))), t);
  }

  /** Nobody else has a reference: it is taken over. */
  lemma TakesHidden(s: State, t: nat, key: Key, p: nat, h: nat)
    requires Shaped(s) && t < |s.threads| && h < s.size && Refcount(s.handles[h].meta) == 0
    ensures var m := s.handles[h].meta.(st := Invisible, acq := s.handles[h].meta.acq + 1);
      Goes(SetPc(SetMeta(s, h, m), t, Take(Hidden(key, p, h, m))), t, 1,
           SetPc(SetMeta(s, h, OWNED), t, Remove(Dispose(h, s.handles[h].entry, ToErase(key, p, h)))))
  {
    hide Goes;
    var m := s.handles[h].meta.(st := Invisible, acq := s.handles[h].meta.acq + 1);
    var pc := Remove(Dispose(h, s.handles[h].entry, ToErase(key, p, h)));
    assert SetMeta(SetMeta(s, h, m), h, OWNED).handles == SetMeta(s, h, OWNED).handles;
    SetTwice(SetMeta(s, h, OWNED), t, Take(Hidden(key, p, h, m)), pc);
    OneGo(SetPc(SetMeta(s, h, m), t, Take(Hidden(key, p, h, m))), t);
  }

  /** What the freeing of an unreferenced entry leaves. */
  ghost function Freed(s: State, h: nat, key: Key, n: nat): State
    requires Shaped(s) && h < s.size == Pow2(n) && s.handles[h].entry < |s.entries|
  {
    var m := Emptied(SetMeta(s, h, OWNED), h, s.handles[h].entry);
    m.(handles := Lowered(m.handles, key, First(key, s.size), h, n))
  }

  lemma FreedIsErased(s: State, h: nat, key: Key, n: nat)
    requires Shaped(s) && h < s.size == Pow2(n) && Hit(s, h, key) && Refcount(s.handles[h].meta) == 0
    ensures ErasedAt(s, Freed(s, h, key, n), h, key) && SameAhead(s, Freed(s, h, key, n), key, Turn(key, h, n), n)
  {
    hide Turn, First;
    var m := Emptied(SetMeta(s, h, OWNED), h, s.handles[h].entry);
    var r := Freed(s, h, key, n);
    forall g: nat | g < |s.handles| && g != h ensures r.handles[g] == s.handles[g].(disp := r.handles[g].disp) {
      assert r.handles[g] == m.handles[g].(disp := r.handles[g].disp);
    }
    assert r.handles[h] == m.handles[h].(disp := r.handles[h].disp);
  }

  lemma HiddenIsErased(s: State, h: nat, key: Key)
    requires Shaped(s) && h < s.size && Hit(s, h, key) && Refcount(s.handles[h].meta) != 0
    ensures ErasedAt(s, SetMeta(s, h, s.handles[h].meta.(st := Invisible)), h, key)
  {
  }

  /** One probe of Erase. */
  lemma EraseProbe(s: State, t: nat, key: Key, p: nat, h: nat, n: nat) returns (a: nat, m: State)
    requires Shaped(s) && s.size == Pow2(n) && t < |s.threads| && h < s.size
    requires Hit(s, h, key) ==> Refcount(s.handles[h].meta) >= 0
    ensures ErasedAt(s, m, h, key) && SameAhead(s, m, key, Turn(key, h, n), n)
    ensures Goes(SetPc(s, t, Erase(Acquire(key, p, h))), t, a, SetPc(m, t, Erase(Next(key, p, h))))
  {
    hide Goes, ErasedAt, Freed, Turn;
    var s0, s3 := SetPc(s, t, Erase(Acquire(key, p, h))), Erase(Next(key, p, h));
    if !Hit(s, h, key) {
      a, m := EraseMisses(s, t, key, p, h);
      JunkIsErased(s, m, h, key);
    } else {
      var x := s.handles[h].meta.(st := Invisible, acq := s.handles[h].meta.acq + 1);
      var s1 := SetPc(SetMeta(s, h, x), t, Take(Hidden(key, p, h, x)));
      Hides(s, t, key, p, h);
      if Refcount(s.handles[h].meta) > 0 {
        m := SetMeta(s, h, s.handles[h].meta.(st := Invisible));
        LeavesHidden(s, t, key, p, h);
        GoesThen(s0, t, 2, s1, 1, SetPc(m, t, s3));
        HiddenIsErased(s, h, key);
        a := 3;
      } else {
        m := Freed(s, h, key, n);
        TakesHidden(s, t, key, p, h);
        var e := s.handles[h].entry;
        var s2 := SetPc(SetMeta(s, h, OWNED), t, Remove(Dispose(h, e, ToErase(key, p, h))));
        GoesThen(s0, t, 2, s1, 1, s2);
        var b := FreesErased(SetMeta(s, h, OWNED), t, key, p, h, e, n);
        FreedIs(s, h, key, n);
        GoesThen(s0, t, 3, s2, b, SetPc(m, t, s3));
        FreedIsErased(s, h, key, n);
        a := 3 + b;
      }
    }
  }

  lemma FreedIs(s: State, h: nat, key: Key, n: nat)
    requires Shaped(s) && h < s.size == Pow2(n) && s.handles[h].entry < |s.entries|
    ensures var m := Emptied(SetMeta(s, h, OWNED), h, s.handles[h].entry);
      Freed(s, h, key, n) == m.(handles := Lowered(m.handles, key, First(key, s.size), h, n))
    ensures Freed(s, h, key, n).threads == s.threads
  {
  }

  // ---------------------------------------------------------------- all probes

  /** The slots of the first p probes have been dealt with. */
  ghost predicate ErasedUpTo(s: State, r: State, key: Key, p: nat, n: nat) {
    && r.size == s.size == Pow2(n) && r.occLimit == s.occLimit && r.base == s.base
    && r.threads == s.threads && r.users == s.users && |r.handles| == |s.handles| && |r.entries| == |s.entries|
    && (forall g: nat :: g < |s.handles| ==> After(s.handles[g], r.handles[g], Visited(key, g, p, n) && Hit(s, g, key)))
    && (forall e: nat :: e < |s.entries| ==> EntryAfter(s, r, e, key, p, n))
  }

  ghost predicate Visited(key: Key, g: nat, p: nat, n: nat) {
    g < Pow2(n) && Turn(key, g, n) < p
  }

  /** e is gone if it was visible for the key and unreferenced in a slot dealt with; if not, it is as it was. */
  ghost predicate EntryAfter(s: State, r: State, e: nat, key: Key, p: nat, n: nat)
    requires e < |s.entries| && |r.entries| == |s.entries|
  {
    if exists h: nat :: Visited(key, h, p, n) && Frees(s, e, h, key) then Gone1(s.entries[e], r.entries[e])
    else r.entries[e] == s.entries[e]
  }

  lemma ErasedStart(s: State, key: Key, n: nat)
    requires s.size == Pow2(n)
    ensures ErasedUpTo(s, s, key, 0, n)
  {
  }

  /** Handles that share an entry are one. */
  ghost predicate Apart(s: State) {
    forall e: nat, g: nat, h: nat, key: Key :: Frees(s, e, g, key) && Frees(s, e, h, key) ==> g == h
  }

  lemma InvApart(s: State)
    requires Inv(s)
    ensures Apart(s)
  {
    hide Inv;
    forall e: nat, g: nat, h: nat, key: Key | Frees(s, e, g, key) && Frees(s, e, h, key) ensures g == h {
      SharedIsStored(s, g);
      SharedIsStored(s, h);
    }
  }

  lemma HitStays(s: State, m: State, key: Key, p: nat, g: nat, n: nat)
    requires ErasedUpTo(s, m, key, p, n) && Apart(s) && !Visited(key, g, p, n)
    ensures Hit(m, g, key) <==> Hit(s, g, key)
    ensures g < |s.handles| && Hit(s, g, key) ==> m.handles[g].meta == s.handles[g].meta
  {
    hide Turn;
    if g < |s.handles| {
      assert After(s.handles[g], m.handles[g], Visited(key, g, p, n) && Hit(s, g, key));
      var e := s.handles[g].entry;
      if e < |s.entries| { assert EntryAfter(s, m, e, key, p, n); }
    }
  }

  lemma HandleMore(s: State, m: State, r: State, key: Key, p: nat, h: nat, n: nat, g: nat)
    requires ErasedUpTo(s, m, key, p, n) && Apart(s) && ErasedAt(m, r, h, key) && h < Pow2(n) && Turn(key, h, n) == p
    requires g < |s.handles|
    ensures After(s.handles[g], r.handles[g], Visited(key, g, p + 1, n) && Hit(s, g, key))
  {
    hide Turn, Apart;
    assert After(s.handles[g], m.handles[g], Visited(key, g, p, n) && Hit(s, g, key));
    HitStays(s, m, key, p, h, n);
    if g != h && g < Pow2(n) && Turn(key, g, n) == p { SameTurn(key, g, h, n); }
  }

  lemma EntryMore(s: State, m: State, r: State, key: Key, p: nat, h: nat, n: nat, e: nat)
    requires ErasedUpTo(s, m, key, p, n) && Apart(s) && ErasedAt(m, r, h, key) && h < Pow2(n) && Turn(key, h, n) == p
    requires e < |s.entries|
    ensures EntryAfter(s, r, e, key, p + 1, n)
  {
    hide Turn;
    assert EntryAfter(s, m, e, key, p, n);
    HitStays(s, m, key, p, h, n);
    if h < |s.handles| { assert After(s.handles[h], m.handles[h], Visited(key, h, p, n) && Hit(s, h, key)); }
    assert Frees(m, e, h, key) <==> Frees(s, e, h, key);
    if exists g: nat :: Visited(key, g, p + 1, n) && Frees(s, e, g, key) {
      var g: nat :| Visited(key, g, p + 1, n) && Frees(s, e, g, key);
      if g != h { if Turn(key, g, n) == p { SameTurn(key, g, h, n); } assert Visited(key, g, p, n); }
    }
  }

  lemma ErasedMore(s: State, m: State, r: State, key: Key, p: nat, h: nat, n: nat)
    requires ErasedUpTo(s, m, key, p, n) && Apart(s) && ErasedAt(m, r, h, key) && h < Pow2(n) && Turn(key, h, n) == p
    ensures ErasedUpTo(s, r, key, p + 1, n)
  {
    hide Apart, After, Hit;
    var q := p + 1;
    forall g: nat | g < |s.handles|
      ensures After(s.handles[g], r.handles[g], Visited(key, g, q, n) && Hit(s, g, key))
    {
      HandleMore(s, m, r, key, p, h, n, g);
    }
    forall e: nat | e < |s.entries| ensures EntryAfter(s, r, e, key, q, n) { EntryMore(s, m, r, key, p, h, n, e); }
  }

  lemma EraseNext(s: State, t: nat, key: Key, p: nat)
    requires Shaped(s) && t < |s.threads| && p < s.size
    ensures var h := Probe(key, p, s.size);
      var s0 := SetPc(s, t, Erase(Next(key, p, h)));
      && Enabled(s0, Go(t))
      && Apply(s0, Go(t)) == SetPc(s, t, if s.handles[h].disp == 0 || p + 1 == s.size then Idle
                                        else Erase(Acquire(key, p + 1, Probe(key, p + 1, s.size))))
  {
    hide Probe, Advance;
    var h := Probe(key, p, s.size);
    AdvanceIsNextProbe(key, p, s.size);
    SetTwice(s, t, Erase(Next(key, p, h)), Idle);
    SetTwice(s, t, Erase(Next(key, p, h)), Erase(Acquire(key, p + 1, Probe(key, p + 1, s.size))));
  }

  /** All that is known while Erase is at its p-th probe, in state m but for the thread's position. */
  ghost predicate At(s: State, m: State, t: nat, key: Key, p: nat, n: nat) {
    && s.size == Pow2(n) && p < s.size && t < |s.threads| && ErasedUpTo(s, m, key, p, n)
    && Consistent(SetPc(m, t, Erase(Acquire(key, p, Probe(key, p, Pow2(n))))), n)
    && SameAhead(s, m, key, p, n) && NoZero(s, key, p)
  }

  lemma CountPositive(m: State, t: nat, pc: Pc, h: nat, n: nat)
    requires t < |m.threads| && Consistent(SetPc(m, t, pc), n) && h < m.size && Shareable(m.handles[h].meta)
    ensures Refcount(m.handles[h].meta) >= 0
  {
    hide Inv;
    var s := SetPc(m, t, pc);
    HandleIsOk(s, h);
    SumsAreNatural(s, h);
  }

  lemma HandleIsOk(s: State, h: nat)
    requires Inv(s) && h < |s.handles|
    ensures HandleOk(s, h)
  {
  }

  lemma SumsAreNatural(s: State, h: nat)
    ensures Claims(s, h).hold >= 0
  {
    SumNonNegative(Parts(s.threads, h, Hold));
  }

  /** Where Erase ends: after the last probe, or the first one with a zero count. */
  ghost predicate EndsAt(s: State, key: Key, q: nat)
    requires s.size > 0
  {
    && 0 < q <= s.size <= |s.handles| && NoZero(s, key, q - 1)
    && (q == s.size || s.handles[Probe(key, q - 1, s.size)].disp == 0)
  }

  /** Some visible entry for the key is beyond a slot of its path with a zero count. */
  ghost predicate SomeHidden(s: State, key: Key)
    requires s.size > 0
  {
    exists q: nat {:trigger Probe(key, q, s.size)} ::
      q < s.size && Hit(s, Probe(key, q, s.size), key) && !NoZero(s, key, q)
  }

  /** What is visible for the key afterwards is what was not dealt with. */
  lemma HitAfter(s: State, r: State, key: Key, q: nat, h: nat, n: nat)
    requires ErasedUpTo(s, r, key, q, n) && Apart(s) && h < s.size
    ensures Hit(r, h, key) <==> Hit(s, h, key) && Turn(key, h, n) >= q
  {
    hide Turn, Apart;
    if Turn(key, h, n) >= q {
      HitStays(s, r, key, q, h, n);
    } else if Hit(r, h, key) {
      VisitedWasHit(s, r, key, q, h, n);
    }
  }

  /** So something is left exactly if something was hidden. */
  lemma LeftIffHidden(s: State, r: State, key: Key, q: nat, n: nat)
    requires ErasedUpTo(s, r, key, q, n) && Apart(s) && EndsAt(s, key, q)
    ensures Present(r, key) <==> SomeHidden(s, key)
  {
    hide Turn, Apart, ErasedUpTo, Hit, Probe, NoZero;
    ErasedShape(s, r, key, q, n);
    if Present(r, key) {
      var h: nat :| h < r.size && Hit(r, h, key);
      HitAfter(s, r, key, q, h, n);
      ProbeOfTurn(key, h, n);
      ZeroBefore(s, key, q, Turn(key, h, n));
      assert Hit(s, Probe(key, Turn(key, h, n), s.size), key);
    }
    if SomeHidden(s, key) {
      var x: nat :| x < s.size && Hit(s, Probe(key, x, s.size), key) && !NoZero(s, key, x);
      TurnOfProbe(key, x, n);
      ZeroBefore(s, key, q, x);
      HitAfter(s, r, key, q, Probe(key, x, s.size), n);
    }
  }

  lemma ZeroBefore(s: State, key: Key, q: nat, x: nat)
    requires s.size > 0 && EndsAt(s, key, q) && x < s.size
    ensures !NoZero(s, key, x) <==> x >= q
  {
    hide Probe;
    if x >= q { assert s.handles[Probe(key, q - 1, s.size)].disp == 0; }
  }

  /** What is visible for the key afterwards was so before. */
  lemma VisitedWasHit(s: State, r: State, key: Key, p: nat, h: nat, n: nat)
    requires ErasedUpTo(s, r, key, p, n) && Hit(r, h, key)
    ensures Hit(s, h, key)
  {
    hide Turn;
    assert After(s.handles[h], r.handles[h], Visited(key, h, p, n) && Hit(s, h, key));
    var e := r.handles[h].entry;
    assert EntryAfter(s, r, e, key, p, n);
  }

  lemma {:induction false} EraseFrom(s: State, m: State, t: nat, key: Key, p: nat, n: nat)
    returns (a: nat, q: nat, r: State)
    requires Apart(s) && At(s, m, t, key, p, n)
    ensures p < q <= s.size && ErasedUpTo(s, r, key, q, n) && EndsAt(s, key, q)
    ensures Goes(SetPc(m, t, Erase(Acquire(key, p, Probe(key, p, Pow2(n))))), t, a, SetPc(r, t, Idle))
    decreases s.size - p
  {
    hide Goes, Probe, Apply, Enabled, Apart, ErasedUpTo, ErasedAt, Inv, Consistent, Hit, NoZero, Turn, SameAhead;
    var h := Probe(key, p, Pow2(n));
    ErasedShape(s, m, key, p, n);
    var s0 := SetPc(m, t, Erase(Acquire(key, p, h)));
    ConsistentShaped(s0, n);
    ProbedCount(m, t, key, p, h, n);
    var b, x := EraseProbe(m, t, key, p, h, n);
    ErasedThreads(m, x, h, key);
    TurnOfProbe(key, p, n);
    ErasedMore(s, m, x, key, p, h, n);
    AheadMore(s, m, x, key, p, h, n);
    var s1 := SetPc(x, t, Erase(Next(key, p, h)));
    ConsistentGoes(s0, t, b, s1, n);
    ConsistentShaped(s1, n);
    EraseNext(x, t, key, p);
    OneGo(s1, t);
    q := p + 1;
    if x.handles[h].disp == 0 || p + 1 == s.size {
      a, r := b + 1, x;
      GoesThen(s0, t, b, s1, 1, SetPc(x, t, Idle));
    } else {
      var s2 := SetPc(x, t, Erase(Acquire(key, p + 1, Probe(key, p + 1, Pow2(n)))));
      GoesThen(s0, t, b, s1, 1, s2);
      ConsistentGoes(s0, t, b + 1, s2, n);
      var c;
      c, q, r := EraseFrom(s, x, t, key, p + 1, n);
      a := b + 1 + c;
      ErasedShape(s, r, key, q, n);
      GoesThen(s0, t, b + 1, s2, c, SetPc(r, t, Idle));
    }
  }

  lemma AheadMore(s: State, m: State, x: State, key: Key, p: nat, h: nat, n: nat)
    requires SameAhead(s, m, key, p, n) && SameAhead(m, x, key, p, n) && h < s.size && Turn(key, h, n) == p
    requires NoZero(s, key, p) && h == Probe(key, p, Pow2(n))
    ensures SameAhead(s, x, key, p + 1, n) && x.handles[h].disp == s.handles[h].disp
    ensures x.handles[h].disp != 0 ==> NoZero(s, key, p + 1)
  {
    hide Turn, Probe;
  }

  lemma ErasedShape(s: State, m: State, key: Key, p: nat, n: nat)
    requires ErasedUpTo(s, m, key, p, n)
    ensures m.size == s.size == Pow2(n) && m.threads == s.threads && |m.handles| == |s.handles|
  {
  }

  lemma ErasedThreads(m: State, x: State, h: nat, key: Key)
    requires ErasedAt(m, x, h, key)
    ensures x.threads == m.threads && x.size == m.size && |x.handles| == |m.handles|
  {
  }

  lemma ProbedCount(m: State, t: nat, key: Key, p: nat, h: nat, n: nat)
    requires t < |m.threads| && h < m.size && Consistent(SetPc(m, t, Erase(Acquire(key, p, h))), n)
    ensures Shaped(m) && (Hit(m, h, key) ==> Refcount(m.handles[h].meta) >= 0)
  {
    hide Inv;
    if Hit(m, h, key) { CountPositive(m, t, Erase(Acquire(key, p, h)), h, n); }
  }

  /** In every state of every run, an Erase that nobody interferes with leaves no visible entry for the key if and only
      if none was beyond a slot of its path with a zero count.  Those it comes by are freed if nobody references them,
      and hidden if somebody does; nothing else changes, displacement counts and junk aside. */
  lemma EraseRightIff(trace: seq<State>, steps: seq<Step>, i: nat, t: nat, key: Key, k: nat)
    returns (n: nat, q: nat, r: State)
    requires Run(trace, steps) && i < |trace| && trace[0].size == Pow2(k)
    requires t < |trace[i].threads| && trace[i].threads[t].Idle?
    ensures trace[i].size == Pow2(k) && Enabled(trace[i], Start(t, CallErase(key)))
    ensures ErasedUpTo(trace[i], r, key, q, k) && EndsAt(trace[i], key, q)
    ensures Goes(Apply(trace[i], Start(t, CallErase(key))), t, n, r) && r.threads == trace[i].threads
    ensures Present(r, key) <==> SomeHidden(trace[i], key)
  {
    hide Goes, Probe, Consistent, ErasedUpTo, Hit, EndsAt;
    var s := trace[i];
    RunConsistent(trace, steps, i, k);
    RunInv(trace, steps, i);
    InvApart(s);
    ConsistentShaped(s, k);
    AtZeroth(key, s.size);
    ErasedStart(s, key, k);
    ConsistentStep(s, Start(t, CallErase(key)), k);
    n, q, r := EraseFrom(s, s, t, key, 0, k);
    ErasedShape(s, r, key, q, k);
    LeftIffHidden(s, r, key, q, k);
    assert s.threads[t := Idle] == s.threads;
  }

  /** In particular, none is left if no lost insertion has rolled back further than it came. */
  lemma EraseLeavesNone(trace: seq<State>, steps: seq<Step>, i: nat, t: nat, key: Key, k: nat)
    returns (n: nat, q: nat, r: State)
    requires Run(trace, steps) && i < |trace| && trace[0].size == Pow2(k) && NoneOverdrawn(trace[i])
    requires t < |trace[i].threads| && trace[i].threads[t].Idle?
    ensures Enabled(trace[i], Start(t, CallErase(key))) && ErasedUpTo(trace[i], r, key, q, k)
    ensures Goes(Apply(trace[i], Start(t, CallErase(key))), t, n, r) && r.threads == trace[i].threads
    ensures !Present(r, key)
  {
    hide Goes, Probe, Consistent, ErasedUpTo, EndsAt, NoneOverdrawn, NoZero, Hit;
    n, q, r := EraseRightIff(trace, steps, i, t, key, k);
    RunConsistent(trace, steps, i, k);
    if SomeHidden(trace[i], key) {
      var x: nat :| x < trace[i].size && Hit(trace[i], Probe(key, x, trace[i].size), key) && !NoZero(trace[i], key, x);
      NothingHidden(trace[i], key, x, k);
      assert false;
    }
  }

  lemma NothingHidden(s: State, key: Key, x: nat, n: nat)
    requires Consistent(s, n) && s.size == Pow2(n) && NoneOverdrawn(s) && x < s.size
    requires Hit(s, Probe(key, x, s.size), key)
    ensures NoZero(s, key, x)
  {
    hide Probe, Turn, Inv;
    var h := Probe(key, x, s.size);
    TurnOfProbe(key, x, n);
    forall y: nat {:trigger Probe(key, y, s.size)} | y < x
      ensures Probe(key, y, s.size) < |s.handles| && s.handles[Probe(key, y, s.size)].disp != 0
    {
      var g := Probe(key, y, s.size);
      TurnOfProbe(key, y, n);
      if s.handles[g].disp == 0 { ZeroHidesNothing(s, n, g, h); }
    }
  }
}
