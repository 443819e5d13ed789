/** Inputs at which the plain reading of a promise fails, and how far it reaches. */
module Limits {
  import opened ElementState
  import opened CacheState
  import opened Lookup
  import opened Evolution
  import opened Operations
  import opened Sections
  import opened Protocol
  import opened Steps
  import opened Service
  import opened SizeBounds
  import opened Safety

  // ----- a small cache in a world where every look at the clock takes a minute

  function Ticking(queued: bool, async: bool, maxSize: Option<nat>, maxAge: nat): Config {
    Config(k => k, queued, async, maxSize, None, Some(maxAge), 1000, 0x1_0000_0000, _ => true, _ => Env({}, {}, 60))
  }

  function Empty(): State {
    Fresh(1.0, {}, 0)
  }

  lemma EmptyInv(c: Config)
    requires Valid(c)
    ensures Inv(c, Empty()) && Reachable(c, Empty())
  {
    hide Inv;
    FreshInv(c, 1.0, {}, 0);
    assert Runs(c, Empty(), []) && After(c, Empty(), []) == Empty();
    assert ReachedBy(c, Empty(), 1.0, {}, 0, []);
  }

  lemma EmptyBucket(c: Config, s: State, k: Key)
    requires Wf(c, s) && s.buckets[BucketOf(c, s, k)] == []
    ensures Find(c, s, k) == Miss(s)
  {
    hide Wf, ScanOk, DeadBefore, Home, LookAt;
  }

  lemma EmptyMisses(c: Config, k: Key)
    requires Valid(c)
    ensures Wf(c, Empty()) && Find(c, Empty(), k) == Miss(Empty())
  {
    hide Inv, Reachable, Wf, Find, Home;
    EmptyInv(c);
    InvWf(c, Empty());
    EmptyFields();
    hide Empty;
    EmptyBucket(c, Empty(), k);
  }

  function Yield(async: bool): Made {
    if async then Promise(0) else Ready(1)
  }

  /** The clock reads sixty when the deadlines are set and a hundred and twenty when the create function has run. */
  lemma TickingClock(c: Config, maxAge: nat, k: Key)
    requires Valid(c) && c == Ticking(c.queued, c.async, c.maxSize, maxAge)
    ensures Wf(c, Empty()) && (Slow(c, Empty(), k) <==> maxAge < 60)
    ensures c.maxAge == Some(maxAge) && AskedAt(c, Empty(), k).now == 60 && MadeAt(c, Empty(), k).now == 120
    ensures MadeAt(c, Empty(), k).futs == map[] && MadeAt(c, Empty(), k).born == {}
  {
    EmptyMisses(c, k);
    hide Inv, Wf, Find, Reachable, Alive, Tends;
  }

  lemma FirstYield(c: Config, maxAge: nat, k: Key)
    requires Valid(c) && c == Ticking(c.queued, c.async, c.maxSize, maxAge)
    ensures Wf(c, Empty()) && Asked(c, Empty(), k, Yield(c.async)) == Yield(c.async)
  {
    TickingClock(c, maxAge, k);
    hide Wf, MadeAt, Alive;
  }

  /** What the first `get` of an empty cache leads to. */
  lemma FirstGet(c: Config, maxAge: nat) returns (r: Reply)
    requires Valid(c) && c == Ticking(c.queued, c.async, c.maxSize, maxAge)
    ensures Inv(c, Empty()) && r == Operations.Get(c, Empty(), 0, 7, Yield(c.async)) && r.created
    ensures Reachable(c, r.s) && Inv(c, r.s)
    ensures 0 in r.s.elems && r.s.elems[0].key == 7 && Core(r.s.elems[0].slot) == Core(FirstSlot(Yield(c.async)))
    ensures maxAge < 60 ==> r.answer == Returned(Null) && r.s.elems[0].useCount == 0
    ensures maxAge < 60 || !c.async ==> r.s.waiters == map[]
    ensures maxAge >= 60 && !c.async ==> 1 in r.s.held
    ensures c.async ==> r.s.futs == map[0 := None]
    ensures forall v :: v in r.s.born ==> Ready(v) == Yield(c.async)
    ensures r.s.elems[0].maxAge == 60 + maxAge && r.s.nextId == 1 && r.s.now >= 0
  {
    hide Inv, Wf, Find, Reachable, Operations.Get, Slow, Asked, AskedAt, MadeAt, Next, Empty, Later, Ticking;
    EmptyInv(c);
    EmptyMisses(c, 7);
    TickingClock(c, maxAge, 7);
    FirstYield(c, maxAge, 7);
    EmptyFields();
    GetMiss(c, Empty(), 0, 7, Yield(c.async));
    NowBefore(c, Empty(), Operations.Get(c, Empty(), 0, 7, Yield(c.async)).s, {});
    MissMakes(c, Empty(), 0, 7, Yield(c.async));
    GetWaiters(c, Empty(), 0, 7, Yield(c.async));
    FirstStep(c);
    r := Operations.Get(c, Empty(), 0, 7, Yield(c.async));
    ReachableInv(c, r.s);
  }

  lemma EmptyFields()
    ensures var s := Empty();
      && s.elems == map[] && s.buckets == [[], [], []] && s.nextId == 0
      && s.waiters == map[] && s.futs == map[] && s.born == {} && s.now == 0
  {
  }

  lemma FirstStep(c: Config)
    requires Valid(c) && Inv(c, Empty()) && Reachable(c, Empty())
    ensures Reachable(c, Operations.Get(c, Empty(), 0, 7, Yield(c.async)).s)
  {
    hide Inv, Wf, Reachable, Operations.Get;
    ReachableNext(c, Empty(), Get(0, 7, Yield(c.async)));
  }

  /** The age limit is fifty seconds, the create function takes sixty: the first `get` of an empty cache returns null,
      from the synchronous and from the asynchronous cache. The latter is left with a pending element that is not locked
      and that no thread will ever resolve. */
  lemma SlowCreation(async: bool) returns (c: Config, r: Reply)
    ensures c == Ticking(false, async, None, 50) && Valid(c) && Inv(c, Empty())
    ensures r == Operations.Get(c, Empty(), 0, 7, Yield(async))
    ensures r.answer == Returned(Null) && r.created && Reachable(c, r.s)
    ensures 0 in r.s.elems && r.s.elems[0].useCount == 0 && r.s.waiters == map[]
    ensures async ==> r.s.elems[0].slot.Pending?
  {
    hide Inv, Reachable, Operations.Get;
    c := Ticking(false, async, None, 50);
    r := FirstGet(c, 50);
  }

  /** The age limit is a hundred seconds. A caller got pointer 1 for key 7 and still holds it; a few minutes later `get`
      returns another pointer for the same key. */
  lemma HeldButAged() returns (c: Config, s: State)
    ensures Valid(c) && Reachable(c, s) && Inv(c, s) && s.waiters == map[]
    ensures 1 in s.held && 0 in s.elems && s.elems[0].key == 7 && Core(s.elems[0].slot) == Value(1)
    ensures Operations.Get(c, s, 0, 7, Ready(2)).answer == Returned(2)
  {
    hide Inv, Reachable, Operations.Get;
    c := Ticking(false, false, None, 100);
    var r := FirstGet(c, 100);
    var s1 := Observe(c, r.s);
    OnePass(c, r.s);
    ReachableInv(c, s1);
    var s2 := Observe(c, s1);
    OnePass(c, s1);
    ReachableInv(c, s2);
    s := Observe(c, s2);
    OnePass(c, s2);
    ReachableInv(c, s);
    OtherPointer(c, r.s, s);
  }

  lemma NowBefore(c: Config, s: State, r: State, gone: set<Key>)
    ensures Later(c, s, r, gone) ==> s.now <= r.now
  {
  }

  /** Two minutes after the first `get`, a second one for the same key creates anew. */
  lemma OtherPointer(c: Config, s0: State, s: State)
    requires Valid(c) && c == Ticking(false, false, None, 100) && Inv(c, s0) && Inv(c, s)
    requires s == Observe(c, Observe(c, Observe(c, s0))) && s0.now >= 0 && s0.nextId == 1 && s0.waiters == map[]
    requires 1 in s0.held && 0 in s0.elems && s0.elems[0].key == 7 && s0.elems[0].maxAge == 160
    requires forall v :: v in s0.born ==> v == 1
    ensures 1 in s.held && s.waiters == map[] && s.elems == s0.elems
    ensures Operations.Get(c, s, 0, 7, Ready(2)).answer == Returned(2)
  {
    assert s.elems == s0.elems && s.now == s0.now + 180 && 1 in s.held && s.born == s0.born by { hide Inv, Alive; }
    BelowNext(s);
    hide Alive, Locks, Unique, Wf;
    assert AllDead(c, s, 7);
    hide Inv, Known, Dead;
    InvWf(c, s);
    DeadKeyMisses(c, s, 7);
    SecondYield(c, s);
    MissMakes(c, s, 0, 7, Ready(2));
  }

  lemma SecondYield(c: Config, s: State)
    requires Valid(c) && c == Ticking(false, false, None, 100) && Wf(c, s) && 2 !in s.born
    ensures Asked(c, s, 7, Ready(2)) == Ready(2) && !Slow(c, s, 7)
  {
    hide Wf, Find, Alive, Tends, ScanOk;
    var f := Find(c, s, 7).s;
    ScanKeeps(c, s, 7, Find(c, s, 7));
    SameNext(c, s, f);
  }

  lemma OnePass(c: Config, s: State)
    requires Valid(c) && Inv(c, s) && Reachable(c, s)
    ensures Reachable(c, Observe(c, s))
  {
    hide Inv, Reachable, Observe;
    ReachableNext(c, s, Pass);
  }

  // ----- more values than `maxSize`

  /** The queue may hold nothing, the age limit is fifty seconds: after one slow creation and the completion of its
      future, a value is alive through an element alone. */
  lemma LostValue() returns (c: Config, s: State)
    ensures Valid(c) && Reachable(c, s) && c.maxSize == Some(0)
    ensures 1 in OnlyHere(s) && |OnlyHere(s)| > 0
  {
    hide Inv, Reachable, Operations.Get;
    c := Ticking(true, true, Some(0), 50);
    var r := FirstGet(c, 50);
    EvictedAtOnce(c, r.s);
    s := Operations.Complete(r.s, 0, Done(1));
    CompleteStep(c, r.s, 0, Done(1));
    LostHolds(c, r.s);
    assert s.futs == map[0 := Some(Done(1))];
  }

  lemma EvictedAtOnce(c: Config, s: State)
    requires Inv(c, s) && c.maxSize == Some(0) && 0 in s.elems && Core(s.elems[0].slot) == Future(0)
    ensures s.elems[0].slot == Pending(0, false, s.elems[0].slot.expired)
  {
    hide Chained, Accounted, Linked, Known, Locks, Unique;
    assert |s.queue.All()| == 0;
  }

  lemma LostHolds(c: Config, s: State)
    requires Inv(c, s) && 0 in s.elems && Core(s.elems[0].slot) == Future(0) && s.waiters == map[]
    requires 0 in s.futs && 1 !in s.born
    ensures 1 in OnlyHere(Operations.Complete(s, 0, Done(1)))
  {
    hide Wf, Locks, Unique;
    var r := Operations.Complete(s, 0, Done(1));
    assert !Alive(s, 1);
    assert Holds(r.futs, r.elems[0].slot, 1);
  }

  lemma CompleteStep(c: Config, s: State, f: Fut, o: Outcome)
    requires Valid(c) && Inv(c, s) && Reachable(c, s) && CanComplete(s, f, o)
    ensures Reachable(c, Operations.Complete(s, f, o))
  {
    hide Inv, Reachable, Operations.Complete, CanComplete;
    ReachableNext(c, s, Complete(f, o));
  }

  /** Thread `i`, for every `i` below `m`, creates the element of key `i` and waits for future `i`; of these futures the
      first `j` have yielded the values `1`, ..., `j`. */
  ghost predicate Crowd(c: Config, s: State, m: nat, j: nat) {
    && (forall i: nat :: i < m ==> i in s.waiters && s.waiters[i].Creator? && s.waiters[i].fut == i)
    && (forall t :: t in s.waiters ==> t < m)
    && (forall f: nat :: f in s.futs <==> f < m)
    && (forall f: nat :: f < m ==> s.futs[f] == if f < j then Some(Done(f + 1)) else None)
    && (forall v :: v in s.born <==> 1 <= v <= j)
    && (forall id :: id in s.elems ==> s.elems[id].key < m)
  }

  lemma CrowdMisses(c: Config, s: State, m: nat)
    requires Inv(c, s) && Crowd(c, s, m, 0)
    ensures Find(c, s, m).Miss?
  {
    assert AllDead(c, s, m);
    hide Inv, Crowd, AllDead;
    InvWf(c, s);
    DeadKeyMisses(c, s, m);
  }

  lemma CrowdYields(c: Config, s: State, m: nat)
    requires Wf(c, s) && c.async && c.maxAge.None? && m !in s.futs
    ensures Asked(c, s, m, Promise(m)) == Promise(m) && !Slow(c, s, m)
  {
    hide Wf, Find, Alive, ScanOk;
    var f := Find(c, s, m).s;
    ScanKeeps(c, s, m, Find(c, s, m));
    SameNext(c, s, f);
    SameNext(c, f, AskedAt(c, s, m));
    SameNext(c, AskedAt(c, s, m), MadeAt(c, s, m));
  }

  /** One more thread joins the crowd. */
  lemma CrowdGrows(c: Config, s: State, m: nat)
    requires Valid(c) && c.async && c.maxAge.None? && Inv(c, s) && Crowd(c, s, m, 0)
    ensures m !in s.waiters && Crowd(c, Operations.Get(c, s, m, m, Promise(m)).s, m + 1, 0)
  {
    hide Inv, Wf, Find, Operations.Get, Slow, Asked;
    CrowdMisses(c, s, m);
    InvWf(c, s);
    CrowdYields(c, s, m);
    MissMakes(c, s, m, m, Promise(m));
    GetWaiters(c, s, m, m, Promise(m));
    var r := Operations.Get(c, s, m, m, Promise(m)).s;
    forall id | id in r.elems ensures r.elems[id].key < m + 1 {
      CrowdKeys(c, s, m, id);
    }
    forall t | t in r.waiters ensures t < m + 1 {
      assert t == m || t in r.waiters - {m};
    }
    forall i: nat | i < m ensures i in r.waiters && r.waiters[i].Creator? && r.waiters[i].fut == i {
      assert i in r.waiters - {m} && (r.waiters - {m})[i] == s.waiters[i];
    }
  }

  lemma CrowdKeys(c: Config, s: State, m: nat, id: Id)
    requires Valid(c) && Inv(c, s) && m !in s.waiters && id in Operations.Get(c, s, m, m, Promise(m)).s.elems
    ensures var r := Operations.Get(c, s, m, m, Promise(m)).s;
      r.elems[id].key == m || (id in s.elems && r.elems[id].key == s.elems[id].key)
  {
    hide Inv, Operations.Get;
    InvWf(c, s);
    StepKeys(c, s, Get(m, m, Promise(m)), id);
  }

  lemma {:induction false} Gather(c: Config, m: nat) returns (s: State)
    requires Valid(c) && c.async && c.maxAge.None?
    ensures Reachable(c, s) && Inv(c, s) && Crowd(c, s, m, 0)
  {
    hide Inv, Reachable, Operations.Get;
    if m == 0 {
      EmptyInv(c);
      s := Empty();
    } else {
      var s0 := Gather(c, m - 1);
      CrowdGrows(c, s0, m - 1);
      GetStep(c, s0, m - 1);
      s := Operations.Get(c, s0, m - 1, m - 1, Promise(m - 1)).s;
      ReachableInv(c, s);
    }
  }

  lemma GetStep(c: Config, s: State, m: nat)
    requires Valid(c) && Inv(c, s) && Reachable(c, s) && m !in s.waiters
    ensures Reachable(c, Operations.Get(c, s, m, m, Promise(m)).s)
  {
    hide Inv, Reachable, Operations.Get;
    ReachableNext(c, s, Get(m, m, Promise(m)));
  }

  lemma {:induction false} Settle(c: Config, m: nat, j: nat) returns (s: State)
    requires Valid(c) && c.async && c.maxAge.None? && j <= m
    ensures Reachable(c, s) && Inv(c, s) && Crowd(c, s, m, j)
  {
    hide Inv, Reachable;
    if j == 0 {
      s := Gather(c, m);
    } else {
      var s0 := Settle(c, m, j - 1);
      CompleteStep(c, s0, j - 1, Done(j));
      s := Operations.Complete(s0, j - 1, Done(j));
      ReachableInv(c, s);
    }
  }

  lemma {:induction false} Range(m: nat) returns (vs: set<Ptr>)
    ensures |vs| == m && forall v :: v in vs <==> 1 <= v <= m
  {
    if m == 0 {
      vs := {};
    } else {
      var ws := Range(m - 1);
      vs := ws + {m};
    }
  }

  /** An asynchronous cache without age limit can hold any number of values, whatever its `maxSize`: as many threads as
      one likes start a creation each, and all of them end before the first thread comes back. */
  lemma Overfull(c: Config, m: nat) returns (s: State)
    requires Valid(c) && c.async && c.maxAge.None?
    ensures Reachable(c, s) && |HeldValues(s)| >= m
  {
    hide Inv, Reachable, Crowd;
    s := Settle(c, m, m);
    var vs := Range(m);
    forall v | v in vs ensures v in HeldValues(s) {
      CrowdHolds(c, s, m, v);
    }
    SubsetSize(vs, HeldValues(s));
  }

  lemma CrowdHolds(c: Config, s: State, m: nat, v: Ptr)
    requires Inv(c, s) && Crowd(c, s, m, m) && 1 <= v <= m
    ensures exists id :: id in s.elems && Holds(s.futs, s.elems[id].slot, v)
  {
    hide Wf, Known, Unique;
    var id := s.waiters[v - 1].id;
    assert Creates(s, v - 1, id);
    assert Holds(s.futs, s.elems[id].slot, v);
  }

  // ----- the synchronous cache

  lemma {:induction false} NoFutures(c: Config, s: State, steps: seq<Step>)
    requires Valid(c) && Inv(c, s) && Runs(c, s, steps) && !c.async && s.futs == map[]
    ensures After(c, s, steps).futs == map[]
    decreases |steps|
  {
    hide Inv, Later, Next, Enabled;
    if steps != [] {
      NoFutureStep(c, s, steps[0]);
      NoFutures(c, Next(c, s, steps[0]).s, steps[1..]);
    }
  }

  lemma NoFutureStep(c: Config, s: State, step: Step)
    requires Valid(c) && Inv(c, s) && Enabled(c, s, step) && !c.async && s.futs == map[]
    ensures Next(c, s, step).s.futs == map[]
  {
    hide Wf, Known, Locks, Unique, Later, Tends, Observe;
    hide Operations.Get, Operations.Peek, Operations.Forget, Operations.Tune, Operations.Finish;
    match step
    case Get(u, k, made) => GetWaiters(c, s, u, k, made);
    case Peek(u, k) => PeekWaiters(c, s, u, k);
    case Forget(k) => ForgetWaiters(c, s, k);
    case Tune(lf) => TuneWaiters(c, s, lf);
    case Pass => SameNext(c, s, Observe(c, s));
    case _ =>
  }

  lemma NoStrays(c: Config, s: State)
    requires Reachable(c, s) && !c.async
    ensures Strays(s) == {}
  {
    hide Inv, Runs, After;
    var lf: real, held, now, steps :| ReachedBy(c, s, lf, held, now, steps);
    FreshInv(c, lf, held, now);
    NoFutures(c, Fresh(lf, held, now), steps);
  }

  /** Without age limit, elements own at most `maxSize` values in every reachable state if and only if the cache is
      synchronous. */
  lemma ValuesBoundedIffSync(c: Config, n: nat)
    requires Valid(c) && c.maxSize == Some(n) && c.maxAge.None?
    ensures (forall s :: Reachable(c, s) ==> |HeldValues(s)| <= n) <==> !c.async
  {
    hide Inv, Reachable, HeldValues, Strays;
    if c.async {
      var s := Overfull(c, n + 1);
      assert Reachable(c, s) && |HeldValues(s)| > n;
    } else {
      forall s | Reachable(c, s) ensures |HeldValues(s)| <= n {
        ReachableInv(c, s);
        SizeBound(c, s);
        NoStrays(c, s);
      }
    }
  }
}
