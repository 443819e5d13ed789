/** What holds in every state that any run of any number of threads reaches. */
module Safety {
  import opened Sequences
  import opened ElementState
  import opened CacheState
  import opened HashChains
  import opened Resize
  import opened Evolution
  import opened Operations
  import opened Protocol
  import opened Steps
  import opened SizeBounds

  /** An element is locked iff a thread creates it; that is one thread, it holds the one lock, the element is pending
      for its future and stands in the bucket its hash selects. A pending element that is not locked is past its age
      limit. */
  ghost predicate AsyncSafe(c: Config, s: State) {
    && (forall id :: id in s.elems ==>
          && s.elems[id].useCount <= 1
          && (s.elems[id].useCount == 1 <==> exists t :: Creates(s, t, id))
          && (s.elems[id].slot.Pending? ==> s.elems[id].useCount == 1 || MaxAged(c, s, s.elems[id])))
    && (forall id, t, t' :: Creates(s, t, id) && Creates(s, t', id) ==> t == t')
    && (forall t :: t in s.waiters && s.waiters[t].Creator? ==>
          && s.waiters[t].id in s.elems
          && Creating(c, s, t, s.waiters[t].id, s.elems[s.waiters[t].id].key, s.waiters[t].fut))
  }

  lemma AsyncSafety(c: Config, s: State)
    requires Inv(c, s)
    ensures AsyncSafe(c, s)
  {
    forall t | t in s.waiters && s.waiters[t].Creator?
      ensures s.waiters[t].id in s.elems
      ensures Creating(c, s, t, s.waiters[t].id, s.elems[s.waiters[t].id].key, s.waiters[t].fut)
    {
      CreatorsCreate(c, s, t);
    }
    hide Wf, Creating, Unique, Known, MaxAged;
  }

  // ----- conservation

  ghost function Total(chains: seq<seq<Id>>): nat {
    if chains == [] then 0 else |chains[0]| + Total(chains[1..])
  }

  lemma {:induction false} BagSize(chains: seq<seq<Id>>)
    ensures |Bag(chains)| == Total(chains)
  {
    if chains != [] {
      BagSize(chains[1..]);
    }
  }

  /** `size` counts the elements over all chains and equals creations minus deletions; nothing is deleted twice. */
  ghost predicate Conserved(s: State) {
    && s.size == Total(s.buckets) == |s.elems| == s.nextId - |s.freed|
    && NoDup(s.freed) && forall id :: id in s.freed ==> id < s.nextId && id !in s.elems
  }

  lemma Conservation(c: Config, s: State)
    requires Inv(c, s)
    ensures Conserved(s)
  {
    hide Known, Locks, Unique, Linked, Coupled;
    forall id ensures Bag(s.buckets)[id] == multiset(s.elems.Keys)[id] {
      ElementsOnce(c, s, id);
    }
    assert Bag(s.buckets) == multiset(s.elems.Keys);
    BagSize(s.buckets);
  }

  // ----- every reachable state

  ghost predicate Reachable(c: Config, s: State) {
    exists lf: real, held, now, steps :: ReachedBy(c, s, lf, held, now, steps)
  }

  ghost predicate ReachedBy(c: Config, s: State, lf: real, held: set<Ptr>, now: int, steps: seq<Step>) {
    && Valid(c) && lf > 0.0 && Null !in held
    && (FreshInv(c, lf, held, now); Runs(c, Fresh(lf, held, now), steps) && s == After(c, Fresh(lf, held, now), steps))
  }

  lemma ReachableInv(c: Config, s: State)
    requires Reachable(c, s)
    ensures Inv(c, s)
  {
    hide Inv, Runs, After;
    var lf: real, held, now, steps :| ReachedBy(c, s, lf, held, now, steps);
    FreshInv(c, lf, held, now);
    assert s == After(c, Fresh(lf, held, now), steps);
  }

  lemma {:induction false} OneStepMore(c: Config, s: State, steps: seq<Step>, step: Step)
    requires Valid(c) && Inv(c, s) && Runs(c, s, steps) && Enabled(c, After(c, s, steps), step)
    ensures Runs(c, s, steps + [step]) && After(c, s, steps + [step]) == Next(c, After(c, s, steps), step).s
    decreases |steps|
  {
    hide Inv, Later, Next, Enabled;
    if steps == [] {
      assert steps + [step] == [step] && [step][1..] == [];
    } else {
      assert (steps + [step])[0] == steps[0] && (steps + [step])[1..] == steps[1..] + [step];
      OneStepMore(c, Next(c, s, steps[0]).s, steps[1..], step);
    }
  }

  lemma ReachableNext(c: Config, s: State, step: Step)
    requires Reachable(c, s)
    requires (ReachableInv(c, s); Valid(c) && Enabled(c, s, step))
    ensures (ReachableInv(c, s); Reachable(c, Next(c, s, step).s))
  {
    hide Inv, Runs, After, Enabled, Next;
    ReachableInv(c, s);
    var lf: real, held, now, steps :| ReachedBy(c, s, lf, held, now, steps);
    FreshInv(c, lf, held, now);
    OneStepMore(c, Fresh(lf, held, now), steps, step);
    assert ReachedBy(c, Next(c, s, step).s, lf, held, now, steps + [step]);
  }

  /** Whenever the mutex is free, in whatever order any number of threads have taken their critical sections, the cache
      is safe, and at most one element per key is alive. */
  lemma ReachableIsSafe(c: Config, s: State)
    requires Reachable(c, s)
    ensures AsyncSafe(c, s) && ValuesBounded(c, s) && Conserved(s)
    ensures forall id, id' :: Live(c, s, id) && Live(c, s, id') && s.elems[id].key == s.elems[id'].key ==> id == id'
  {
    hide AsyncSafe, ValuesBounded, Conserved, Wf, Known, Locks;
    ReachableInv(c, s);
    AsyncSafety(c, s);
    SizeBound(c, s);
    Conservation(c, s);
  }
}
