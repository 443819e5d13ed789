/** Any number of threads on one cache: the steps they take between two moments at which the mutex is free, and
    what holds in every state that any run of them reaches. */
module Protocol {
  import opened QueueModel
  import opened ElementState
  import opened CacheState
  import opened Maintenance
  import opened Evolution
  import opened Operations
  import opened Sections

  datatype Step =
    | Get(t: Tid, k: Key, made: Made)
    | Peek(t: Tid, k: Key)
    | Forget(k: Key)
    | Finish(t: Tid)
    | Wake(t: Tid)
    | Complete(f: Fut, o: Outcome)
    | Tune(lf: real)
    | Pass

  /** A thread that waits for a future does nothing else; futures complete at any time, in any order. */
  predicate Enabled(c: Config, s: State, step: Step)
    requires Wf(c, s)
  {
    match step
    case Get(t, k, made) => t !in s.waiters
    case Peek(t, k) => t !in s.waiters
    case Finish(t) => t in s.waiters && s.waiters[t].Creator? && Settled(s, s.waiters[t].fut)
    case Wake(t) => t in s.waiters && s.waiters[t].Join? && Settled(s, s.waiters[t].fut)
    case Complete(f, o) => CanComplete(s, f, o)
    case _ => true
  }

  ghost function Gone(step: Step): set<Key> {
    if step.Forget? then {step.k} else {}
  }

  lemma InvWf(c: Config, s: State)
    ensures Inv(c, s) ==> Wf(c, s)
  {
  }

  function Next(c: Config, s: State, step: Step): (r: Reply)
    requires Valid(c) && Inv(c, s) && Enabled(c, s, step)
    ensures Inv(c, r.s) && Later(c, s, r.s, Gone(step))
  {
    InvWf(c, s);
    hide Inv, Wf, Later, Operations.Get, Operations.Peek, Operations.Forget, Operations.Finish, Operations.Wake,
      Operations.Complete, Operations.Tune, Observe, CanComplete;
    match step
    case Get(t, k, made) => GetKeeps(c, s, t, k, made); Operations.Get(c, s, t, k, made)
    case Peek(t, k) => PeekKeeps(c, s, t, k); Operations.Peek(c, s, t, k)
    case Forget(k) => ForgetKeeps(c, s, k); Reply(Operations.Forget(c, s, k).s, Absent, false)
    case Finish(t) => FinishKeeps(c, s, t); Operations.Finish(c, s, t)
    case Wake(t) => WakeKeeps(c, s, t); Operations.Wake(s, t)
    case Complete(f, o) => CompleteKeeps(c, s, f, o); Reply(Operations.Complete(s, f, o), Absent, false)
    case Tune(lf) => TuneKeeps(c, s, lf); Reply(Operations.Tune(c, s, lf), Absent, false)
    case Pass => ObserveKeeps(c, s); Reply(Observe(c, s), Absent, false)
  }

  /** The steps can be taken one after the other from `s`. */
  ghost predicate Runs(c: Config, s: State, steps: seq<Step>)
    requires Valid(c) && Inv(c, s)
    decreases |steps|
  {
    hide Later, Next, Known, Locks, Unique;
    steps == [] || (Enabled(c, s, steps[0]) && Runs(c, Next(c, s, steps[0]).s, steps[1..]))
  }

  ghost function GoneIn(steps: seq<Step>): set<Key> {
    if steps == [] then {} else Gone(steps[0]) + GoneIn(steps[1..])
  }

  lemma LaterWeakens(c: Config, s: State, s': State, gone: set<Key>, gone': set<Key>)
    requires gone <= gone'
    ensures Later(c, s, s', gone) ==> Later(c, s, s', gone')
  {
  }

  lemma KnownOf(c: Config, s: State)
    ensures Inv(c, s) ==> Known(s)
  {
  }

  /** The state after a run. Every step of every run keeps the invariant. */
  ghost function After(c: Config, s: State, steps: seq<Step>): (r: State)
    requires Valid(c) && Inv(c, s) && Runs(c, s, steps)
    ensures Inv(c, r) && Later(c, s, r, GoneIn(steps))
    decreases |steps|
  {
    KnownOf(c, s);
    hide Inv, Bounded, Wf, Locks, Unique, Known, Later, Next, Enabled;
    if steps == [] then LaterRefl(c, s, {}); s else
    var s1 := Next(c, s, steps[0]).s;
    var r := After(c, s1, steps[1..]);
    LaterWeakens(c, s, s1, Gone(steps[0]), GoneIn(steps));
    LaterWeakens(c, s1, r, GoneIn(steps[1..]), GoneIn(steps));
    LaterTrans(c, s, s1, r, GoneIn(steps));
    r
  }

  /** An empty cache with three buckets. */
  function Fresh(lf: real, held: set<Ptr>, now: int): State {
    State(map[], [[], [], []], Queue([], []), 0, lf, map[], map[], held, {}, held, now, 0, 0, [])
  }

  lemma FreshInv(c: Config, lf: real, held: set<Ptr>, now: int)
    requires Valid(c) && lf > 0.0 && Null !in held
    ensures Inv(c, Fresh(lf, held, now))
  {
    hide Home;
    var s := Fresh(lf, held, now);
    assert s.queue.All() == [];
    assert forall b :: 0 <= b < 3 ==> s.buckets[b] == [];
  }
}
