/** The state of one cache and the smallest steps that its operations are made of. */
module CacheState {
  import opened Sequences
  import opened QueueModel
  import opened ElementState

  datatype Option<+T> = None | Some(value: T)

  /** Keys up to the user's equality: equal keys are one `Key`. */
  type Key = nat
  /** Elements are named by their serial number of creation, so a name is never used twice. */
  type Id = nat
  type Tid = nat

  datatype Elem = Elem(key: Key, slot: Slot, useCount: nat, maxAge: int, access: int)

  /** What the outside world does between two observations made by the cache: holders let go of values, others
      acquire values that are still alive, and the clock advances. */
  datatype Env = Env(drop: set<Ptr>, take: set<Ptr>, elapsed: nat)

  datatype Config = Config(
    hash: Key -> nat,
    queued: bool,
    async: bool,
    maxSize: Option<nat>,
    accessExpire: Option<nat>,
    maxAge: Option<nat>,
    maxBuckets: nat,
    wordSize: nat,
    canGrow: nat -> bool,
    world: nat -> Env)

  /** A thread that waits for a future outside the mutex: either it joined another's creation or it is the creator. */
  datatype Wait = Join(fut: Fut) | Creator(fut: Fut, id: Id)

  datatype State = State(
    elems: map<Id, Elem>,
    buckets: seq<seq<Id>>,
    queue: Queue<Id>,
    size: int,
    lf: real,
    futs: map<Fut, Option<Outcome>>,
    waiters: map<Tid, Wait>,
    held: set<Ptr>,
    pinned: set<Ptr>,
    born: set<Ptr>,
    now: int,
    tick: nat,
    nextId: nat,
    freed: seq<Id>)

  // ----- liveness and expiry

  predicate Completed(futs: map<Fut, Option<Outcome>>, f: Fut, v: Ptr) {
    v != Null && f in futs && futs[f] == Some(Done(v))
  }

  /** Does this slot own a reference to `v`? */
  predicate Holds(futs: map<Fut, Option<Outcome>>, x: Slot, v: Ptr) {
    match x
    case Strong(u) => u == v != Null
    case Pending(f, _, _) => Completed(futs, f, v)
    case _ => false
  }

  /** A value exists while an outside holder, a local of the running section, an element or a waiting thread refers to
      it. */
  predicate Alive(s: State, v: Ptr) {
    || v in s.held
    || v in s.pinned
    || (exists id :: id in s.elems && Holds(s.futs, s.elems[id].slot, v))
    || (exists t :: t in s.waiters && Completed(s.futs, s.waiters[t].fut, v))
  }

  predicate MaxAged(c: Config, s: State, e: Elem) {
    c.maxAge.Some? && s.now > e.maxAge
  }

  predicate IsExpired(c: Config, s: State, e: Elem) {
    || MaxAged(c, s, e)
    || match e.slot
       case Empty => true
       case Weak(v) => v == Null || !Alive(s, v)
       case Strong(v) => v == Null
       case Pending(_, _, _) => false
  }

  /** Expiry of an element's content, whatever the strength with which the element holds it. */
  predicate Dead(c: Config, s: State, e: Elem) {
    || MaxAged(c, s, e)
    || match Core(e.slot)
       case Nothing => true
       case Value(v) => v == Null || !Alive(s, v)
       case Future(_) => false
  }

  lemma ExpiredIsDead(c: Config, s: State, id: Id)
    requires id in s.elems
    ensures IsExpired(c, s, s.elems[id]) <==> Dead(c, s, s.elems[id])
  {
    var x := s.elems[id].slot;
    if x.Strong? && x.v != Null {
      assert Holds(s.futs, s.elems[id].slot, x.v);
    }
  }

  // ----- representation invariants

  function Home(c: Config, n: nat, k: Key): (b: nat)
    requires n > 0
    ensures b < n
  {
    c.hash(k) % n
  }

  /** Every element sits exactly once in the bucket its hash selects, and `size` counts the elements. */
  ghost predicate Chained(c: Config, s: State) {
    && |s.buckets| > 0
    && (forall b, id :: 0 <= b < |s.buckets| ==>
          (id in s.buckets[b] <==> id in s.elems && Home(c, |s.buckets|, s.elems[id].key) == b))
    && (forall b :: 0 <= b < |s.buckets| ==> NoDup(s.buckets[b]))
    && s.size == |s.elems|
    && (forall id :: id in s.elems ==> id < s.nextId)
  }

  /** The queue links only existing elements, each at most once. */
  ghost predicate Linked(s: State) {
    && NoDup(s.queue.All())
    && (forall id :: id in s.queue.All() ==> id in s.elems)
  }

  /** A linked element is not weak and an unlinked one is not strong. */
  ghost predicate Coupled(s: State) {
    forall id :: id in s.elems ==>
      if id in s.queue.All() then !IsWeak(s.elems[id].slot) else !IsStrong(s.elems[id].slot)
  }

  /** Every element ever created either exists or has been destroyed, the latter exactly once. */
  ghost predicate Accounted(s: State) {
    && NoDup(s.freed)
    && (forall id :: id in s.freed ==> id < s.nextId && id !in s.elems)
    && |s.freed| + |s.elems| == s.nextId
  }

  ghost predicate Wf(c: Config, s: State) {
    Chained(c, s) && Linked(s) && Coupled(s) && Accounted(s)
  }

  // ----- what maintenance may do to the elements of the cache

  ghost predicate SameElem(e: Elem, e': Elem) {
    && e'.key == e.key && e'.maxAge == e.maxAge && e'.useCount == e.useCount
    && Core(e'.slot) == Core(e.slot) && Marked(e'.slot) == Marked(e.slot)
  }

  /** `s'` comes from `s` by maintenance: only unlocked dead elements disappear, the others keep key, deadline,
      lock count, content and mark, and no value comes back to life. */
  ghost predicate Tends(c: Config, s: State, s': State) {
    && s'.futs == s.futs && s'.waiters == s.waiters && s'.pinned == s.pinned && s'.born == s.born
    && s'.lf == s.lf && s'.nextId == s.nextId
    && s.now <= s'.now && |s.buckets| <= |s'.buckets|
    && (forall v :: Alive(s', v) ==> Alive(s, v))
    && (forall id :: id in s'.elems ==> id in s.elems && SameElem(s.elems[id], s'.elems[id]))
    && (forall id :: id in s.elems && id !in s'.elems ==>
          s.elems[id].useCount == 0 && Dead(c, s', s.elems[id]))
  }

  lemma DeadStays(c: Config, s: State, s': State, e: Elem, e': Elem)
    requires Tends(c, s, s') && SameElem(e, e')
    requires Dead(c, s, e)
    ensures Dead(c, s', e')
  {
  }

  lemma TendsRefl(c: Config, s: State)
    ensures Tends(c, s, s)
  {
  }

  lemma TendsTrans(c: Config, s: State, s': State, s'': State)
    ensures Tends(c, s, s') && Tends(c, s', s'') ==> Tends(c, s, s'')
  {
    if Tends(c, s, s') && Tends(c, s', s'') {
      forall id | id in s.elems && id !in s''.elems
        ensures s.elems[id].useCount == 0 && Dead(c, s'', s.elems[id])
      {
        if id in s'.elems {
          assert Core(s'.elems[id].slot) == Core(s.elems[id].slot);
        } else {
          DeadStays(c, s', s'', s.elems[id], s.elems[id]);
        }
      }
    }
  }

  // ----- frames

  lemma WfFrame(c: Config, s: State, s': State)
    requires s'.elems == s.elems && s'.buckets == s.buckets && s'.size == s.size && s'.nextId == s.nextId
    requires s'.queue.All() == s.queue.All() && s'.freed == s.freed
    ensures Wf(c, s) ==> Wf(c, s')
  {
  }

  lemma TendsFrame(c: Config, s: State, s': State)
    requires s'.elems == s.elems && s'.futs == s.futs && s'.waiters == s.waiters && s'.pinned == s.pinned
    requires s'.held == s.held && s'.born == s.born && s'.lf == s.lf && s'.nextId == s.nextId && s'.now == s.now
    requires |s.buckets| <= |s'.buckets|
    ensures Tends(c, s, s')
  {
  }

  lemma LinkedExists(c: Config, s: State)
    ensures Wf(c, s) ==> forall id :: id in s.queue.All() ==> id in s.elems
  {
  }

  // ----- the smallest steps

  function Interfere(s: State, e: Env): State {
    s.(held := (s.held - e.drop) + (set v | v in e.take && Alive(s, v)),
       now := s.now + e.elapsed,
       tick := s.tick + 1)
  }

  lemma InterfereTends(c: Config, s: State, e: Env)
    ensures Tends(c, s, Interfere(s, e))
  {
    var r := Interfere(s, e);
    forall v | Alive(r, v) ensures Alive(s, v) {}
  }

  /** The world moves on before the cache looks at the clock or at a pointee. Pinned values cannot be dropped. */
  function Observe(c: Config, s: State): (r: State)
    ensures Tends(c, s, r)
    ensures Wf(c, s) ==> Wf(c, r)
    ensures r.elems == s.elems && r.buckets == s.buckets && r.queue == s.queue
  {
    hide Tends, Wf;
    InterfereTends(c, s, c.world(s.tick));
    WfFrame(c, s, Interfere(s, c.world(s.tick)));
    Interfere(s, c.world(s.tick))
  }

  /** A world in which nothing happens. */
  ghost predicate Quiet(c: Config) {
    forall n :: c.world(n) == Env({}, {}, 0)
  }

  lemma QuietObserve(c: Config, s: State)
    requires Quiet(c)
    ensures Observe(c, s) == s.(tick := Observe(c, s).tick)
  {
    var e := c.world(s.tick);
    assert (s.held - e.drop) + (set v | v in e.take && Alive(s, v)) == s.held;
  }

  /** An element leaves its chain and the queue and is destroyed. */
  function Discard(c: Config, s: State, id: Id): (r: State)
    requires Wf(c, s) && id in s.elems
    ensures Wf(c, r)
    ensures r.elems == s.elems - {id} && r.queue == s.queue.Delete(id) && r.freed == s.freed + [id]
    ensures var b := Home(c, |s.buckets|, s.elems[id].key);
      r.buckets == s.buckets[b := Remove(s.buckets[b], id)]
  {
    var b := Home(c, |s.buckets|, s.elems[id].key);
    var r := s.(
      elems := s.elems - {id},
      buckets := s.buckets[b := Remove(s.buckets[b], id)],
      size := s.size - 1,
      queue := s.queue.Delete(id),
      freed := s.freed + [id]);
    DiscardWf(c, s, id, r);
    hide Wf;
    r
  }

  lemma DiscardWf(c: Config, s: State, id: Id, r: State)
    requires Wf(c, s) && id in s.elems
    requires r.elems == s.elems - {id} && r.queue == s.queue.Delete(id) && r.freed == s.freed + [id]
    requires r.size == s.size - 1 && r.nextId == s.nextId
    requires var b := Home(c, |s.buckets|, s.elems[id].key); r.buckets == s.buckets[b := Remove(s.buckets[b], id)]
    ensures Wf(c, r)
  {
    EraseChained(c, s, id, r);
    EraseAccounted(s, id, r) by { hide Linked, Coupled, Home; }
    RemoveNoDup(s.queue.All(), id);
    hide Chained, Accounted, Home;
  }

  /** Erasing a dead, unlocked element is maintenance. */
  function Erase(c: Config, s: State, id: Id): (r: State)
    requires Wf(c, s) && id in s.elems
    requires s.elems[id].useCount == 0 && Dead(c, s, s.elems[id])
    ensures Wf(c, r) && Tends(c, s, r)
    ensures r.elems == s.elems - {id} && r.queue == s.queue.Delete(id)
    ensures var b := Home(c, |s.buckets|, s.elems[id].key);
      r.buckets == s.buckets[b := Remove(s.buckets[b], id)]
  {
    hide Wf, Tends, Dead;
    var r := Discard(c, s, id);
    EraseTends(c, s, id, r);
    r
  }

  lemma EraseAccounted(s: State, id: Id, r: State)
    requires Accounted(s) && id in s.elems && id < s.nextId
    requires r.elems == s.elems - {id} && r.freed == s.freed + [id] && r.nextId == s.nextId
    ensures Accounted(r)
  {
    assert NoDup([id]);
    NoDupConcat(s.freed, [id]);
    assert r.elems.Keys == s.elems.Keys - {id};
    assert |r.elems| == |s.elems| - 1;
  }

  lemma EraseChained(c: Config, s: State, id: Id, r: State)
    requires Chained(c, s) && id in s.elems
    requires r.elems == s.elems - {id} && r.size == s.size - 1 && r.nextId == s.nextId
    requires var b := Home(c, |s.buckets|, s.elems[id].key);
      r.buckets == s.buckets[b := Remove(s.buckets[b], id)]
    ensures Chained(c, r)
  {
    hide Home;
    var b := Home(c, |s.buckets|, s.elems[id].key);
    RemoveNoDup(s.buckets[b], id);
    assert r.elems.Keys == s.elems.Keys - {id};
    assert |r.elems| == |s.elems| - 1;
  }

  lemma EraseTends(c: Config, s: State, id: Id, r: State)
    requires |r.buckets| == |s.buckets|
    requires id in s.elems && s.elems[id].useCount == 0 && Dead(c, s, s.elems[id])
    requires r.elems == s.elems - {id}
    requires r.futs == s.futs && r.waiters == s.waiters && r.pinned == s.pinned
    requires r.held == s.held && r.born == s.born && r.lf == s.lf && r.nextId == s.nextId && r.now == s.now
    ensures Tends(c, s, r)
  {
    forall v | Alive(r, v) ensures Alive(s, v) {}
  }

  /** Replaces the slot of an element. */
  function WithSlot(s: State, id: Id, x: Slot): State
    requires id in s.elems
  {
    s.(elems := s.elems[id := s.elems[id].(slot := x)])
  }

  /** Takes (`delta` 1) or releases (`delta` -1) a delete-lock on an element. */
  function WithLock(s: State, id: Id, delta: int): State
    requires id in s.elems && s.elems[id].useCount + delta >= 0
  {
    s.(elems := s.elems[id := s.elems[id].(useCount := s.elems[id].useCount + delta)])
  }

  /** The chains depend on which elements exist and on their keys only. */
  lemma ChainedFrame(c: Config, s: State, s': State)
    requires s'.elems.Keys == s.elems.Keys && forall id :: id in s.elems ==> s'.elems[id].key == s.elems[id].key
    requires s'.buckets == s.buckets && s'.size == s.size && s'.nextId == s.nextId && s'.freed == s.freed
    ensures Chained(c, s) ==> Chained(c, s')
    ensures Accounted(s) ==> Accounted(s')
  {
    hide Home;
    assert |s'.elems| == |s'.elems.Keys| == |s.elems.Keys| == |s.elems|;
  }

  /** Rewriting the strength of an element is maintenance as long as it does not resurrect the pointee. */
  lemma RestrengthTends(c: Config, s: State, id: Id, x: Slot)
    requires id in s.elems && Core(x) == Core(s.elems[id].slot) && Marked(x) == Marked(s.elems[id].slot)
    requires x.Strong? && x.v != Null ==> Alive(s, x.v)
    ensures Tends(c, s, WithSlot(s, id, x))
  {
    var r := WithSlot(s, id, x);
    forall v | Alive(r, v) ensures Alive(s, v) {}
  }

  /** An eviction loop weakens the coldest element and unlinks it. */
  function PopColdest(c: Config, s: State): (r: State)
    requires Wf(c, s) && s.queue.All() != []
    ensures Wf(c, r) && Tends(c, s, r)
    ensures r.elems.Keys == s.elems.Keys && r.queue == s.queue.DropColdest()
    ensures forall id :: id in s.elems ==> r.elems[id].access == s.elems[id].access
    ensures |r.buckets| == |s.buckets|
  {
    var id := s.queue.Coldest();
    var x := Weakened(s.elems[id].slot);
    var s1 := WithSlot(s, id, x);
    var r := s1.(queue := s.queue.DropColdest());
    assert id !in s.queue.DropColdest().All();
    hide Tends, Chained, Accounted;
    RestrengthTends(c, s, id, x);
    TendsFrame(c, s1, r);
    TendsTrans(c, s, s1, r);
    ChainedFrame(c, s, r);
    r
  }

  function Rebalance(c: Config, s: State): (r: State)
    ensures Tends(c, s, r)
    ensures Wf(c, s) ==> Wf(c, r)
    ensures r == s.(queue := s.queue.Rebalanced())
  {
    hide Tends, Wf;
    var r := s.(queue := s.queue.Rebalanced());
    TendsFrame(c, s, r);
    WfFrame(c, s, r);
    r
  }
}
