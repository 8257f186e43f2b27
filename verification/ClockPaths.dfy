/** Sequences of steps of the concurrent clock table, from one state to another. */
module ClockPaths {
  import opened ClockMachine
  import opened ClockOwnership

  /** The steps lead from s to r. */
  ghost predicate Leads(s: State, path: seq<Step>, r: State)
    decreases |path|
  {
    if path == [] then r == s else Enabled(s, path[0]) && Leads(Apply(s, path[0]), path[1..], r)
  }

  /** The states on the way. */
  ghost function Trace(s: State, path: seq<Step>, r: State): (trace: seq<State>)
    requires Leads(s, path, r)
    ensures |trace| == |path| + 1 && trace[0] == s && trace[|path|] == r
    ensures forall i :: 0 <= i < |path| ==> Enabled(trace[i], path[i]) && trace[i + 1] == Apply(trace[i], path[i])
    decreases |path|
  {
    if path == [] then [s] else [s] + Trace(Apply(s, path[0]), path[1..], r)
  }

  lemma OneStep(s: State, step: Step)
    requires Enabled(s, step)
    ensures Leads(s, [step], Apply(s, step))
  {
    assert [step][1..] == [];
  }

  lemma {:induction false} LeadsThen(s: State, p: seq<Step>, m: State, q: seq<Step>, r: State)
    requires Leads(s, p, m) && Leads(m, q, r)
    ensures Leads(s, p + q, r)
    decreases |p|
  {
    hide Enabled, Apply;
    if p == [] {
      assert p + q == q;
    } else {
      assert (p + q)[0] == p[0] && (p + q)[1..] == p[1..] + q;
      LeadsThen(Apply(s, p[0]), p[1..], m, q, r);
    }
  }

  lemma StepInv(s: State, step: Step)
    requires Inv(s) && Enabled(s, step)
    ensures Inv(Apply(s, step))
  {
    hide Inv, DoGo, DoStart;
    match step
    case Start(t, call) => StartStep(s, t, call);
    case Go(t) => GoStep(s, t);
  }

  /** One thread goes on; the table's parameters stay. */
  predicate Moves(s: State, r: State, t: nat) {
    && t < |s.threads| && |r.threads| == |s.threads| && r.threads == s.threads[t := r.threads[t]]
    && r.size == s.size && r.occLimit == s.occLimit
  }

  lemma RemoveMoves(s: State, t: nat, p: RemovePc)
    requires Shaped(s) && t < |s.threads| && RemoveInBounds(s, p)
    ensures Moves(s, GoRemove(s, t, p), t)
  {
  }

  lemma InsertMoves(s: State, t: nat, n: InsertPc)
    requires Shaped(s) && t < |s.threads| && s.threads[t] == Insert(n) && InBounds(s, s.threads[t])
    ensures Moves(s, DoGo(s, t), t)
  {
  }

  lemma OtherMoves(s: State, t: nat)
    requires Shaped(s) && t < |s.threads| && InBounds(s, s.threads[t])
    requires !s.threads[t].Remove? && !s.threads[t].Insert?
    ensures Moves(s, DoGo(s, t), t)
  {
  }

  lemma GoMoves(s: State, t: nat)
    requires Shaped(s) && t < |s.threads| && InBounds(s, s.threads[t])
    ensures Moves(s, DoGo(s, t), t)
  {
    hide Moves, GoRemove, GoPlace, GoBack, GoCharge, GoEvict, GoTake, GoLookup, GoErase;
    match s.threads[t]
    case Remove(p) => RemoveMoves(s, t, p);
    case Insert(n) => InsertMoves(s, t, n);
    case _ => OtherMoves(s, t);
  }

  lemma StartMoves(s: State, t: nat, call: Call)
    requires Shaped(s) && t < |s.threads| && s.threads[t].Idle? && CallOk(s, call)
    ensures Moves(s, DoStart(s, t, call), t)
  {
  }

  lemma StepMoves(s: State, step: Step)
    requires Enabled(s, step)
    ensures Moves(s, Apply(s, step), step.t)
  {
    hide DoGo, DoStart, Moves;
    match step
    case Start(t, call) => StartMoves(s, t, call);
    case Go(t) => GoMoves(s, t);
  }

  lemma {:induction false} LeadsInv(s: State, path: seq<Step>, r: State)
    requires Inv(s) && Leads(s, path, r)
    ensures Inv(r) && r.size == s.size && |r.threads| == |s.threads|
    decreases |path|
  {
    hide Inv, Enabled, Apply;
    if path != [] {
      StepInv(s, path[0]);
      StepMoves(s, path[0]);
      LeadsInv(Apply(s, path[0]), path[1..], r);
    }
  }

  lemma Stay(s: State)
    ensures Leads(s, [], s)
  {
  }

  lemma GoEnabled(s: State, v: nat)
    requires Inv(s) && v < |s.threads|
    ensures Enabled(s, Go(v))
  {
    assert ThreadOk(s, v);
  }

  function GoAs(s: State, v: nat): (r: State)
    requires Enabled(s, Go(v))
    ensures r == Apply(s, Go(v)) == DoGo(s, v)
  {
    Apply(s, Go(v))
  }

  lemma Follow(s: State, p: seq<Step>, m: State, step: Step)
    requires Leads(s, p, m) && Enabled(m, step)
    ensures Leads(s, p + [step], Apply(m, step))
  {
    OneStep(m, step);
    LeadsThen(s, p, m, [step], Apply(m, step));
  }
}
