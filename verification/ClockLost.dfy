/**
 When an insertion into the clock table can find no slot.

 In a table of a power of two of slots, with a limit below that number, it takes a second thread and a limit of at
 least two.  The run is this: thread 0 looks for a slot along 0, 1, 2 and so on.  Before it comes to a slot, thread 1
 stores an entry there; once the slot has refused thread 0, thread 1 has the entry erased again.  All the while no more
 than one slot is in use.
 */
module ClockLost {
  import opened Basics
  import opened ClockProbe
  import opened ClockMachine
  import opened ClockPaths
  import opened ClockRoom

  /** Slots, occupancy limit and threads. */
  datatype Config = Config(size: nat, limit: nat, threads: nat)

  predicate Wide(c: Config) {
    c.size > 0 && c.limit >= 2 && c.threads >= 2
  }

  const SEEKER: Key := Key(0, 0)

  /** The key of the entry that is in the way at slot j. */
  function Blocker(j: nat): Key {
    Key(1, j)
  }

  const INS: Ins := Ins(0, SEEKER, 1, 1, false, true, false, false, 100, false)

  function BlockerIns(p: nat): Ins {
    Ins(p + 1, Blocker(p), 1, 1, true, true, false, false, 100, false)
  }

  /** Thread 0 is at a, thread 1 at b, and the others do nothing. */
  function Threads(c: Config, a: Pc, b: Pc): (ths: seq<Pc>)
    requires Wide(c)
    ensures |ths| == c.threads && ths[0] == a && ths[1] == b && forall t :: 2 <= t < c.threads ==> ths[t] == Idle
  {
    [a, b] + seq(c.threads - 2, _ => Idle)
  }

  function Slots(c: Config, p: nat): (hs: seq<Handle>)
    ensures |hs| == c.size
    ensures forall j :: 0 <= j < c.size ==> hs[j] == Handle(EMPTY, if j < p then j + 1 else 0, B(j < p))
  {
    seq(c.size, j requires 0 <= j < c.size => Handle(EMPTY, if j < p then j + 1 else 0, B(j < p)))
  }

  function Entries(p: nat): (es: seq<Entry>)
    ensures |es| == p + 1 && es[0] == Entry(SEEKER, 1, With(0), 0)
    ensures forall j :: 0 < j <= p ==> es[j] == Entry(Blocker(j - 1), 1, Gone, 1)
  {
    [Entry(SEEKER, 1, With(0), 0)] + seq(p, j requires 0 <= j < p => Entry(Blocker(j), 1, Gone, 1))
  }

  /** p slots have refused the seeker and are empty again. */
  function Between(c: Config, p: nat): State
    requires Wide(c)
  {
    var ths := Threads(c, Insert(Claim(INS, p, p)), Idle);
    State(c.size, c.limit, 0, Slots(c, p), Entries(p), multiset{}, ths, 1, 1, 0)
  }

  /** While slot p holds x and the blocker's entry is e. */
  function Blocked(c: Config, p: nat, x: Handle, e: Entry, users: multiset<(nat, nat)>, a: Pc, b: Pc, usage: int,
                   occ: int): State
    requires Wide(c) && p < c.size
  {
    State(c.size, c.limit, 0, Slots(c, p)[p := x], Entries(p) + [e], users, Threads(c, a, b), usage, occ, 0)
  }

  function Waiting(p: nat): Entry {
    Entry(Blocker(p), 1, With(1), 0)
  }

  function Placed(p: nat): Entry {
    Entry(Blocker(p), 1, InHandle(p), 0)
  }

  lemma Probes(c: Config, p: nat)
    requires Wide(c) && p < c.size
    ensures First(Blocker(p), c.size) == p && First(SEEKER, c.size) == 0
    ensures p + 1 < c.size ==> Advance(SEEKER, p, c.size) == p + 1
  {
  }

  /** What stands at slot p while thread 1's entry is there. */
  function Standing(c: Config, p: nat, a: Pc): State
    requires Wide(c) && p < c.size
  {
    Blocked(c, p, Handle(Meta(Visible, 1, 0), p + 1, 0), Placed(p), multiset{(p, p + 1)}, a, Idle, 2, 2)
  }

  // ---------------------------------------------------------------- thread 1 stores its entry

  /** Slot p holds x and nobody else's reference; the seeker is about to come to it. */
  function Ahead(c: Config, p: nat, x: Handle, n: InsertPc, usage: int): State
    requires Wide(c) && p < c.size
  {
    Blocked(c, p, x, Waiting(p), multiset{}, Insert(Claim(INS, p, p)), Insert(n), usage, 2)
  }

  lemma Starts(c: Config, p: nat)
    requires Wide(c) && p < c.size
    ensures var go := Start(1, CallInsert(Blocker(p), 1, 1, true, 100, false));
      && Enabled(Between(c, p), go)
      && Apply(Between(c, p), go) == Ahead(c, p, Handle(EMPTY, 0, 0), LooseLoad(BlockerIns(p)), 1)
  {
    hide Slots, Entries, Threads;
    assert Slots(c, p)[p := Handle(EMPTY, 0, 0)] == Slots(c, p);
  }

  lemma Loads(c: Config, p: nat)
    requires Wide(c) && p < c.size
    ensures var s := Ahead(c, p, Handle(EMPTY, 0, 0), LooseLoad(BlockerIns(p)), 1);
      Enabled(s, Go(1)) && Apply(s, Go(1)) == Ahead(c, p, Handle(EMPTY, 0, 0), LooseAdd(BlockerIns(p), 0), 1)
  {
    hide Slots, Entries, Threads;
  }

  lemma Adds(c: Config, p: nat)
    requires Wide(c) && p < c.size
    ensures var s := Ahead(c, p, Handle(EMPTY, 0, 0), LooseAdd(BlockerIns(p), 0), 1);
      Enabled(s, Go(1)) && Apply(s, Go(1)) == Ahead(c, p, Handle(EMPTY, 0, 0), Claim(BlockerIns(p), 0, p), 2)
  {
    hide Slots, Entries, Threads;
    Probes(c, p);
  }

  lemma Claims(c: Config, p: nat)
    requires Wide(c) && p < c.size
    ensures var s := Ahead(c, p, Handle(EMPTY, 0, 0), Claim(BlockerIns(p), 0, p), 2);
      Enabled(s, Go(1)) && Apply(s, Go(1)) == Ahead(c, p, Handle(OWNED, 0, 0), Write(BlockerIns(p), 0, p), 2)
  {
    hide Slots, Entries, Threads;
  }

  lemma Writes(c: Config, p: nat)
    requires Wide(c) && p < c.size
    ensures var s := Ahead(c, p, Handle(OWNED, 0, 0), Write(BlockerIns(p), 0, p), 2);
      Enabled(s, Go(1)) && Apply(s, Go(1)) == Ahead(c, p, Handle(OWNED, p + 1, 0), Publish(BlockerIns(p), 0, p), 2)
  {
    hide Slots, Entries, Threads;
  }

  lemma Publishes(c: Config, p: nat)
    requires Wide(c) && p < c.size
    ensures var s := Ahead(c, p, Handle(OWNED, p + 1, 0), Publish(BlockerIns(p), 0, p), 2);
      Enabled(s, Go(1)) && Apply(s, Go(1)) == Standing(c, p, Insert(Claim(INS, p, p)))
  {
    hide Slots, Entries, Threads;
    assert Entries(p) + [Placed(p)] == (Entries(p) + [Waiting(p)])[p + 1 := Placed(p)];
  }

  lemma StoresBlocker(c: Config, p: nat) returns (path: seq<Step>)
    requires Wide(c) && p < c.size
    ensures Leads(Between(c, p), path, Standing(c, p, Insert(Claim(INS, p, p))))
  {
    hide Leads, Enabled, Apply, Between, Ahead, Standing;
    var s, go := Between(c, p), Start(1, CallInsert(Blocker(p), 1, 1, true, 100, false));
    var e, ins := Handle(EMPTY, 0, 0), BlockerIns(p);
    Starts(c, p);
    Loads(c, p);
    Adds(c, p);
    Claims(c, p);
    Writes(c, p);
    Publishes(c, p);
    OneStep(s, go);
    path := [go];
    Follow(s, path, Ahead(c, p, e, LooseLoad(ins), 1), Go(1));
    path := path + [Go(1)];
    Follow(s, path, Ahead(c, p, e, LooseAdd(ins, 0), 1), Go(1));
    path := path + [Go(1)];
    Follow(s, path, Ahead(c, p, e, Claim(ins, 0, p), 2), Go(1));
    path := path + [Go(1)];
    Follow(s, path, Ahead(c, p, Handle(OWNED, 0, 0), Write(ins, 0, p), 2), Go(1));
    path := path + [Go(1)];
    Follow(s, path, Ahead(c, p, Handle(OWNED, p + 1, 0), Publish(ins, 0, p), 2), Go(1));
    path := path + [Go(1)];
  }

  // ---------------------------------------------------------------- the seeker is refused

  /** Where the seeker goes from slot p. */
  function Onward(c: Config, p: nat): Pc {
    Insert(if p + 1 < c.size then Claim(INS, p + 1, p + 1) else Lost(INS, 0, 0))
  }

  function Matching(c: Config, p: nat): State
    requires Wide(c) && p < c.size
  {
    var a := Insert(Match(INS, p, p));
    Blocked(c, p, Handle(Meta(Visible, 2, 0), p + 1, 0), Placed(p), multiset{(p, p + 1)}, a, Idle, 2, 2)
  }

  function Passed(c: Config, p: nat): State
    requires Wide(c) && p < c.size
  {
    Blocked(c, p, Handle(Meta(Visible, 1, 0), p + 1, 1), Placed(p), multiset{(p, p + 1)}, Onward(c, p), Idle, 2, 2)
  }

  lemma FindsFull(c: Config, p: nat)
    requires Wide(c) && p < c.size
    ensures var s := Standing(c, p, Insert(Claim(INS, p, p)));
      Enabled(s, Go(0)) && Apply(s, Go(0)) == Standing(c, p, Insert(Boost(INS, p, p)))
  {
    hide Slots, Entries, Threads;
  }

  lemma Boosts(c: Config, p: nat)
    requires Wide(c) && p < c.size
    ensures var s := Standing(c, p, Insert(Boost(INS, p, p))); Enabled(s, Go(0)) && Apply(s, Go(0)) == Matching(c, p)
  {
    hide Slots, Entries, Threads;
  }

  lemma Differs(c: Config, p: nat)
    requires Wide(c) && p < c.size
    ensures Enabled(Matching(c, p), Go(0))
    ensures Apply(Matching(c, p), Go(0)) == Standing(c, p, Insert(Displace(INS, p, p)))
  {
    hide Slots, Entries, Threads;
    assert Matching(c, p).entries[p + 1] == Placed(p);
  }

  lemma Displaces(c: Config, p: nat)
    requires Wide(c) && p < c.size
    ensures var s := Standing(c, p, Insert(Displace(INS, p, p))); Enabled(s, Go(0)) && Apply(s, Go(0)) == Passed(c, p)
  {
    hide Slots, Entries, Threads;
    Probes(c, p);
  }

  lemma IsRefused(c: Config, p: nat) returns (path: seq<Step>)
    requires Wide(c) && p < c.size
    ensures Leads(Standing(c, p, Insert(Claim(INS, p, p))), path, Passed(c, p))
  {
    hide Leads, Enabled, Apply, Standing, Matching, Passed;
    var s := Standing(c, p, Insert(Claim(INS, p, p)));
    FindsFull(c, p);
    Boosts(c, p);
    Differs(c, p);
    Displaces(c, p);
    OneStep(s, Go(0));
    path := [Go(0)];
    Follow(s, path, Standing(c, p, Insert(Boost(INS, p, p))), Go(0));
    path := path + [Go(0)];
    Follow(s, path, Matching(c, p), Go(0));
    path := path + [Go(0)];
    Follow(s, path, Standing(c, p, Insert(Displace(INS, p, p))), Go(0));
    path := path + [Go(0)];
  }

  // ---------------------------------------------------------------- thread 1 has its entry erased

  function Behind(c: Config, p: nat, m: Meta, e: Entry, b: Pc, usage: int, occ: int): State
    requires Wide(c) && p < c.size
  {
    Blocked(c, p, Handle(m, p + 1, 1), e, multiset{}, Onward(c, p), b, usage, occ)
  }

  function Erased(p: nat): Entry {
    Entry(Blocker(p), 1, Gone, 1)
  }

  lemma Releases(c: Config, p: nat)
    requires Wide(c) && p < c.size
    ensures var go, m := Start(1, CallRelease(p, p + 1, true, true)), Meta(Visible, 1, 1);
      Enabled(Passed(c, p), go) && Apply(Passed(c, p), go) == Behind(c, p, m, Placed(p), Take(Released(p, m)), 2, 2)
  {
    hide Slots, Entries, Threads;
    assert multiset{(p, p + 1)} - multiset{(p, p + 1)} == multiset{};
  }

  lemma Takes(c: Config, p: nat)
    requires Wide(c) && p < c.size
    ensures var m := Meta(Visible, 1, 1);
      var s := Behind(c, p, m, Placed(p), Take(Released(p, m)), 2, 2);
      && Enabled(s, Go(1))
      && Apply(s, Go(1)) == Behind(c, p, OWNED, Placed(p), Remove(Roll(p, p + 1, p, ToIdle)), 2, 2)
  {
    hide Slots, Entries, Threads;
    Probes(c, p);
  }

  lemma Rolls(c: Config, p: nat)
    requires Wide(c) && p < c.size
    ensures var s := Behind(c, p, OWNED, Placed(p), Remove(Roll(p, p + 1, p, ToIdle)), 2, 2);
      && Enabled(s, Go(1))
      && Apply(s, Go(1)) == Behind(c, p, OWNED, Placed(p), Remove(Dispose(p, p + 1, ToIdle)), 2, 2)
  {
    hide Slots, Entries, Threads;
  }

  lemma Disposes(c: Config, p: nat)
    requires Wide(c) && p < c.size
    ensures var s := Behind(c, p, OWNED, Placed(p), Remove(Dispose(p, p + 1, ToIdle)), 2, 2);
      Enabled(s, Go(1)) && Apply(s, Go(1)) == Behind(c, p, OWNED, Erased(p), Remove(Mark(p, 1, ToIdle)), 2, 2)
  {
    hide Slots, Entries, Threads;
    assert Entries(p) + [Erased(p)] == (Entries(p) + [Placed(p)])[p + 1 := Erased(p)];
  }

  lemma Marks(c: Config, p: nat)
    requires Wide(c) && p < c.size
    ensures var s := Behind(c, p, OWNED, Erased(p), Remove(Mark(p, 1, ToIdle)), 2, 2);
      Enabled(s, Go(1)) && Apply(s, Go(1)) == Behind(c, p, EMPTY, Erased(p), Remove(Reclaim1(p, 1, ToIdle)), 2, 2)
  {
    hide Slots, Entries, Threads;
  }

  lemma Reclaims(c: Config, p: nat)
    requires Wide(c) && p < c.size
    ensures var s := Behind(c, p, EMPTY, Erased(p), Remove(Reclaim1(p, 1, ToIdle)), 2, 2);
      Enabled(s, Go(1)) && Apply(s, Go(1)) == Behind(c, p, EMPTY, Erased(p), Remove(Reclaim2(p, 1, ToIdle)), 2, 1)
    ensures var s := Behind(c, p, EMPTY, Erased(p), Remove(Reclaim2(p, 1, ToIdle)), 2, 1);
      Enabled(s, Go(1)) && Apply(s, Go(1)) == Behind(c, p, EMPTY, Erased(p), Idle, 1, 1)
  {
    hide Slots, Entries, Threads;
  }

  lemma ErasesBlocker(c: Config, p: nat) returns (path: seq<Step>)
    requires Wide(c) && p < c.size
    ensures Leads(Passed(c, p), path, Behind(c, p, EMPTY, Erased(p), Idle, 1, 1))
  {
    hide Leads, Enabled, Apply, Passed, Behind;
    var s, go, m := Passed(c, p), Start(1, CallRelease(p, p + 1, true, true)), Meta(Visible, 1, 1);
    Releases(c, p);
    Takes(c, p);
    Rolls(c, p);
    Disposes(c, p);
    Marks(c, p);
    Reclaims(c, p);
    OneStep(s, go);
    path := [go];
    Follow(s, path, Behind(c, p, m, Placed(p), Take(Released(p, m)), 2, 2), Go(1));
    path := path + [Go(1)];
    Follow(s, path, Behind(c, p, OWNED, Placed(p), Remove(Roll(p, p + 1, p, ToIdle)), 2, 2), Go(1));
    path := path + [Go(1)];
    Follow(s, path, Behind(c, p, OWNED, Placed(p), Remove(Dispose(p, p + 1, ToIdle)), 2, 2), Go(1));
    path := path + [Go(1)];
    Follow(s, path, Behind(c, p, OWNED, Erased(p), Remove(Mark(p, 1, ToIdle)), 2, 2), Go(1));
    path := path + [Go(1)];
    Follow(s, path, Behind(c, p, EMPTY, Erased(p), Remove(Reclaim1(p, 1, ToIdle)), 2, 2), Go(1));
    path := path + [Go(1)];
    Follow(s, path, Behind(c, p, EMPTY, Erased(p), Remove(Reclaim2(p, 1, ToIdle)), 2, 1), Go(1));
    path := path + [Go(1)];
  }

  // ---------------------------------------------------------------- from slot to slot

  /** The seeker passes over slot p. */
  lemma Passes(c: Config, p: nat) returns (path: seq<Step>)
    requires Wide(c) && p < c.size
    ensures Leads(Between(c, p), path, Behind(c, p, EMPTY, Erased(p), Idle, 1, 1))
  {
    hide Leads, Between, Standing, Passed, Behind;
    var x := StoresBlocker(c, p);
    var y := IsRefused(c, p);
    var z := ErasesBlocker(c, p);
    var claim := Insert(Claim(INS, p, p));
    LeadsThen(Between(c, p), x, Standing(c, p, claim), y, Passed(c, p));
    LeadsThen(Between(c, p), x + y, Passed(c, p), z, Behind(c, p, EMPTY, Erased(p), Idle, 1, 1));
    path := x + y + z;
  }

  lemma NextIsBetween(c: Config, p: nat)
    requires Wide(c) && p + 1 < c.size
    ensures Behind(c, p, EMPTY, Erased(p), Idle, 1, 1) == Between(c, p + 1)
  {
    hide Slots, Entries, Threads;
    assert Slots(c, p)[p := Handle(EMPTY, p + 1, 1)] == Slots(c, p + 1);
    assert Entries(p) + [Erased(p)] == Entries(p + 1);
  }

  lemma {:induction false} PassesAll(c: Config, p: nat) returns (path: seq<Step>)
    requires Wide(c) && p < c.size
    ensures Leads(Between(c, 0), path, Between(c, p))
  {
    hide Leads, Between, Behind;
    if p == 0 {
      Stay(Between(c, 0));
      path := [];
    } else {
      var a := PassesAll(c, p - 1);
      var b := Passes(c, p - 1);
      NextIsBetween(c, p - 1);
      LeadsThen(Between(c, 0), a, Between(c, p - 1), b, Between(c, p));
      path := a + b;
    }
  }

  /** A new table, and thread 0 at a. */
  function Fresh(c: Config, a: Pc, es: seq<Entry>, usage: int, occ: int): State
    requires Wide(c)
  {
    State(c.size, c.limit, 0, Slots(c, 0), es, multiset{}, Threads(c, a, Idle), usage, occ, 0)
  }

  lemma SeekerStarts(c: Config)
    requires Wide(c)
    ensures Init(Fresh(c, Idle, [], 0, 0))
    ensures var s, go := Fresh(c, Idle, [], 0, 0), Start(0, CallInsert(SEEKER, 1, 1, false, 100, false));
      Enabled(s, go) && Apply(s, go) == Fresh(c, Insert(LooseLoad(INS)), Entries(0), 0, 1)
  {
    hide Slots, Entries, Threads;
    assert Entries(0) == [Entry(SEEKER, 1, With(0), 0)];
  }

  lemma SeekerLoads(c: Config)
    requires Wide(c)
    ensures var s := Fresh(c, Insert(LooseLoad(INS)), Entries(0), 0, 1);
      Enabled(s, Go(0)) && Apply(s, Go(0)) == Fresh(c, Insert(LooseAdd(INS, 0)), Entries(0), 0, 1)
  {
    hide Slots, Entries, Threads;
  }

  lemma SeekerAdds(c: Config)
    requires Wide(c)
    ensures var s := Fresh(c, Insert(LooseAdd(INS, 0)), Entries(0), 0, 1);
      Enabled(s, Go(0)) && Apply(s, Go(0)) == Between(c, 0)
  {
    hide Slots, Entries, Threads;
    Probes(c, 0);
  }

  lemma Begins(c: Config) returns (path: seq<Step>)
    requires Wide(c)
    ensures Init(Fresh(c, Idle, [], 0, 0)) && Leads(Fresh(c, Idle, [], 0, 0), path, Between(c, 0))
  {
    hide Leads, Enabled, Apply, Between, Fresh;
    var go := Start(0, CallInsert(SEEKER, 1, 1, false, 100, false));
    SeekerStarts(c);
    SeekerLoads(c);
    SeekerAdds(c);
    OneStep(Fresh(c, Idle, [], 0, 0), go);
    path := [go];
    Follow(Fresh(c, Idle, [], 0, 0), path, Fresh(c, Insert(LooseLoad(INS)), Entries(0), 0, 1), Go(0));
    path := path + [Go(0)];
    Follow(Fresh(c, Idle, [], 0, 0), path, Fresh(c, Insert(LooseAdd(INS, 0)), Entries(0), 0, 1), Go(0));
    path := path + [Go(0)];
  }

  /** From the start of the table an insertion gets lost; in the end the table is empty. */
  lemma SeekerIsLost(c: Config) returns (path: seq<Step>, r: State)
    requires Wide(c)
    ensures Init(Fresh(c, Idle, [], 0, 0)) && Leads(Fresh(c, Idle, [], 0, 0), path, r) && IsLost(r, 0)
    ensures |r.handles| == c.size && forall h :: 0 <= h < c.size ==> r.handles[h].meta == EMPTY
    ensures r.threads == Threads(c, Insert(Lost(INS, 0, 0)), Idle) && r.usage == 1 && r.occupancy == 1
  {
    hide Leads, Between;
    var s, p := Fresh(c, Idle, [], 0, 0), c.size - 1;
    var x := Begins(c);
    var y := PassesAll(c, p);
    var z := Passes(c, p);
    r := Behind(c, p, EMPTY, Erased(p), Idle, 1, 1);
    LeadsThen(s, x, Between(c, 0), y, Between(c, p));
    LeadsThen(s, x + y, Between(c, p), z, r);
    path := x + y + z;
  }

  // ---------------------------------------------------------------- exactly when

  /** Some run of such a table comes to an insertion that is lost. */
  ghost predicate MayBeLost(c: Config) {
    exists trace: seq<State>, steps: seq<Step>, j: nat, t: nat :: LosesAt(c, trace, steps, j, t)
  }

  ghost predicate LosesAt(c: Config, trace: seq<State>, steps: seq<Step>, j: nat, t: nat) {
    && Run(trace, steps) && j < |trace| && IsLost(trace[j], t)
    && trace[0].size == c.size && trace[0].occLimit == c.limit && |trace[0].threads| == c.threads
  }

  /** In a table of a power of two of slots, with a limit below that number, insertions can get lost if and only if
      there are at least two threads and the limit is at least two. */
  lemma LostIff(c: Config, k: nat)
    requires c.size == Pow2(k) && c.limit < c.size
    ensures MayBeLost(c) <==> c.limit >= 2 && c.threads >= 2
  {
    hide Run, Leads, IsLost, Pow2;
    if MayBeLost(c) {
      var trace, steps, j: nat, t: nat :| LosesAt(c, trace, steps, j, t);
      LostNeedsRoom(trace, steps, j, t, k);
    }
    if c.limit >= 2 && c.threads >= 2 {
      var path, r := SeekerIsLost(c);
      var trace := Trace(Fresh(c, Idle, [], 0, 0), path, r);
      IsRun(trace, path);
      assert LosesAt(c, trace, path, |path|, 0);
    }
  }

  lemma IsRun(trace: seq<State>, steps: seq<Step>)
    requires |trace| == |steps| + 1 && Init(trace[0])
    requires forall i :: 0 <= i < |steps| ==> Enabled(trace[i], steps[i]) && trace[i + 1] == Apply(trace[i], steps[i])
    ensures Run(trace, steps)
  {
  }
}
