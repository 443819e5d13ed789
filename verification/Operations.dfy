/** The critical sections of the cache, each from taking the mutex to releasing it. */
module Operations {
  import opened Sequences
  import opened QueueModel
  import opened ElementState
  import opened CacheState
  import opened Maintenance
  import opened Lookup
  import opened Resize
  import opened Evolution

  // ----- a hit

  function Pins(got: Content): set<Ptr> {
    if got.Value? then {got.v} - {Null} else {}
  }

  /** The served element is pinned and locked while the decorators run; its pointer then goes to the caller. */
  function Serve(c: Config, s: State, id: Id): (r: State)
    requires Wf(c, s) && id in s.elems
    ensures Wf(c, r) && id in r.elems && Bounded(c, r)
    ensures s.queue.Balanced() ==> r.queue.Balanced()
    ensures |r.buckets| == |s.buckets|
  {
    hide Wf, Tends, OnHit;
    var got := Core(s.elems[id].slot);
    var s1 := WithLock(s, id, 1).(pinned := s.pinned + Pins(got));
    LockWf(c, s, id, 1, s1);
    var s2 := OnHit(c, s1, id);
    ServedStays(c, s1, s2, id);
    var r := WithLock(s2, id, -1).(pinned := s.pinned, held := s2.held + Pins(got));
    LockWf(c, s2, id, -1, r);
    r
  }

  lemma LockWf(c: Config, s: State, id: Id, delta: int, r: State)
    requires id in s.elems && s.elems[id].useCount + delta >= 0
    requires r.elems == WithLock(s, id, delta).elems && r.buckets == s.buckets && r.queue == s.queue
    requires r.size == s.size && r.nextId == s.nextId && r.freed == s.freed
    ensures Wf(c, s) ==> Wf(c, r)
  {
    ChainedFrame(c, s, r);
    hide Chained, Accounted;
  }

  lemma ServedStays(c: Config, s: State, s': State, id: Id)
    requires id in s.elems && s.elems[id].useCount > 0
    ensures Tends(c, s, s') ==> id in s'.elems && s'.elems[id].useCount == s.elems[id].useCount
  {
  }

  /** For everybody else, serving a live element is maintenance. */
  lemma ServeTends(c: Config, s: State, id: Id)
    requires Wf(c, s) && id in s.elems && !Dead(c, s, s.elems[id])
    ensures Tends(c, s, Serve(c, s, id))
  {
    hide Wf, OnHit;
    var got := Core(s.elems[id].slot);
    var s1 := WithLock(s, id, 1).(pinned := s.pinned + Pins(got));
    LockWf(c, s, id, 1, s1);
    var s2 := OnHit(c, s1, id);
    var r := Serve(c, s, id);
    forall v | Alive(r, v) ensures Alive(s2, v) && Alive(s, v) {
      assert Alive(s2, v);
      assert Alive(s1, v);
    }
  }

  /** A live element that is served ends up at the front of the queue or, if it was unlinked, between the halves. */
  lemma ServeReorders(c: Config, s: State, id: Id)
    requires Wf(c, s) && id in s.elems && !Dead(c, s, s.elems[id]) && c.queued
    ensures Serve(c, s, id).queue.All() <=
      if id in s.queue.All() then [id] + Remove(s.queue.All(), id) else s.queue.Create(id).All()
  {
    hide Wf, OnHit, Alive;
    var s1 := WithLock(s, id, 1).(pinned := s.pinned + Pins(Core(s.elems[id].slot)));
    LockWf(c, s, id, 1, s1);
    HitReorders(c, s1, id);
  }

  // ----- a creation

  /** What the create function yields: an exception, a pointer (synchronous cache) or a future (asynchronous cache). */
  datatype Made = Throws | Ready(v: Ptr) | Promise(f: Fut)

  /** A pointer is new or still alive and, as the source asserts, not null; a future belongs to this creation alone. */
  predicate Admissible(c: Config, s: State, made: Made) {
    match made
    case Throws => true
    case Ready(v) => !c.async && v != Null && (v in s.born ==> Alive(s, v))
    case Promise(f) => c.async && f !in s.futs
  }

  /** What the create function can have yielded at this moment: anything else counts as an exception. */
  function Effective(c: Config, s: State, made: Made): (r: Made)
    ensures Admissible(c, s, r) && (r == made || r.Throws?)
  {
    if Admissible(c, s, made) then made else Throws
  }

  /** Has the age limit passed that was set at time `at`? */
  predicate Late(c: Config, s: State, at: int) {
    c.maxAge.Some? && s.now > at + c.maxAge.value
  }

  /** What was yielded exists from now on. A pointer is pinned, unless it is `late`: then the section keeps none. */
  function Invent(s: State, made: Made, late: bool): State {
    match made
    case Throws => s
    case Ready(v) => s.(born := s.born + {v}, pinned := s.pinned + if late then {} else {v})
    case Promise(f) => s.(futs := s.futs[f := None])
  }

  function FirstSlot(made: Made): Slot {
    match made
    case Throws => Empty
    case Ready(v) => Strong(v)
    case Promise(f) => Pending(f, true, false)
  }

  /** The new element, which is locked at once. The decorators set its deadlines at time `at`, before the create
      function ran. */
  function NewElem(c: Config, k: Key, x: Slot, at: int): Elem {
    Elem(k, x, 1,
         at + if c.maxAge.Some? then c.maxAge.value else 0,
         at + if c.accessExpire.Some? then c.accessExpire.value else 0)
  }

  /** Links the new element at the end of its chain. */
  function Attach(c: Config, s: State, k: Key, x: Slot, at: int): State
    requires |s.buckets| > 0
  {
    var b := Home(c, |s.buckets|, k);
    s.(elems := s.elems[s.nextId := NewElem(c, k, x, at)],
       buckets := s.buckets[b := s.buckets[b] + [s.nextId]],
       nextId := s.nextId + 1)
  }

  /** Counts the new element; the first decorator queues it or, without a queue, weakens it. */
  function Count(c: Config, s: State, id: Id): State
    requires id in s.elems
  {
    var r := s.(size := s.size + 1);
    if c.queued then r.(queue := r.queue.Create(id)) else WithSlot(r, id, Weakened(r.elems[id].slot))
  }

  /** All that the insertion of an element for key `k` changes. */
  ghost predicate Inserted(c: Config, s: State, r: State, k: Key, x: Slot, at: int)
    requires |s.buckets| > 0
  {
    var b := Home(c, |s.buckets|, k);
    r == s.(
      elems := s.elems[s.nextId := NewElem(c, k, if c.queued then x else Weakened(x), at)],
      buckets := s.buckets[b := s.buckets[b] + [s.nextId]],
      size := s.size + 1,
      nextId := s.nextId + 1,
      queue := if c.queued then s.queue.Create(s.nextId) else s.queue)
  }

  function Insert(c: Config, s: State, k: Key, x: Slot, at: int): (r: State)
    requires Wf(c, s) && !IsWeak(x)
    ensures Wf(c, r) && |s.buckets| > 0 && Inserted(c, s, r, k, x, at)
  {
    assert |s.buckets| > 0;
    hide Wf, Home, Queue.Create, Weakened;
    var r := Count(c, Attach(c, s, k, x, at), s.nextId);
    assert r.elems == s.elems[s.nextId := NewElem(c, k, if c.queued then x else Weakened(x), at)];
    InsertWf(c, s, r, k, x, at);
    r
  }

  lemma InsertWf(c: Config, s: State, r: State, k: Key, x: Slot, at: int)
    requires Wf(c, s) && !IsWeak(x) && Inserted(c, s, r, k, x, at)
    ensures Wf(c, r)
  {
    var e := NewElem(c, k, if c.queued then x else Weakened(x), at);
    InsertChained(c, s, k, e, r);
    InsertAccounted(s, e, r);
    InsertLinked(c, s, s.nextId);
    hide Chained, Accounted, Home, Queue.Create;
  }

  lemma InsertMember(c: Config, s: State, k: Key, e: Elem, r: State, d: nat, id: Id)
    requires Chained(c, s) && e.key == k && d < |s.buckets|
    requires r.elems == s.elems[s.nextId := e]
    requires var b := Home(c, |s.buckets|, k); r.buckets == s.buckets[b := s.buckets[b] + [s.nextId]]
    ensures id in r.buckets[d] <==> id in r.elems && Home(c, |r.buckets|, r.elems[id].key) == d
  {
    hide Home, NoDup;
    assert id in r.buckets[d] <==> id in s.buckets[d] || (d == Home(c, |s.buckets|, k) && id == s.nextId);
  }

  lemma InsertNoDup(c: Config, s: State, b: nat, d: nat)
    requires Chained(c, s) && b < |s.buckets| && d < |s.buckets|
    ensures NoDup(s.buckets[b := s.buckets[b] + [s.nextId]][d])
  {
    hide Home;
    if d == b {
      assert s.nextId !in s.elems;
      assert s.nextId !in s.buckets[b];
      assert NoDup([s.nextId]);
      NoDupConcat(s.buckets[b], [s.nextId]);
    }
  }

  lemma InsertCounts(c: Config, s: State, e: Elem)
    requires Chained(c, s)
    ensures |s.buckets| > 0 && |s.elems[s.nextId := e]| == s.size + 1
    ensures forall id :: id in s.elems ==> id < s.nextId
  {
    hide Home, NoDup;
    assert s.nextId !in s.elems;
    OneMoreKey(s.elems, s.nextId, e);
  }

  lemma OneMoreKey(m: map<Id, Elem>, id: Id, e: Elem)
    requires id !in m
    ensures |m[id := e]| == |m| + 1
  {
    assert m[id := e].Keys == m.Keys + {id};
  }

  lemma ChainedIntro(c: Config, r: State)
    requires |r.buckets| > 0 && r.size == |r.elems| && forall id :: id in r.elems ==> id < r.nextId
    requires forall b :: 0 <= b < |r.buckets| ==> NoDup(r.buckets[b])
    requires forall b, id :: 0 <= b < |r.buckets| ==>
      (id in r.buckets[b] <==> id in r.elems && Home(c, |r.buckets|, r.elems[id].key) == b)
    ensures Chained(c, r)
  {
    hide Home, NoDup;
  }

  lemma InsertChained(c: Config, s: State, k: Key, e: Elem, r: State)
    requires Chained(c, s) && e.key == k && |s.buckets| > 0
    requires r.elems == s.elems[s.nextId := e] && r.size == s.size + 1 && r.nextId == s.nextId + 1
    requires var b := Home(c, |s.buckets|, k); r.buckets == s.buckets[b := s.buckets[b] + [s.nextId]]
    ensures Chained(c, r)
  {
    hide Home, NoDup, Chained;
    InsertCounts(c, s, e);
    forall d | 0 <= d < |r.buckets| ensures NoDup(r.buckets[d]) {
      InsertNoDup(c, s, Home(c, |s.buckets|, k), d);
    }
    forall d, id | 0 <= d < |r.buckets|
      ensures id in r.buckets[d] <==> id in r.elems && Home(c, |r.buckets|, r.elems[id].key) == d
    {
      InsertMember(c, s, k, e, r, d, id);
    }
    ChainedIntro(c, r);
  }

  lemma InsertAccounted(s: State, e: Elem, r: State)
    requires Accounted(s) && s.nextId !in s.elems
    requires r.elems == s.elems[s.nextId := e] && r.nextId == s.nextId + 1 && r.freed == s.freed
    ensures Accounted(r)
  {
    OneMoreKey(s.elems, s.nextId, e);
  }

  lemma InsertLinked(c: Config, s: State, id: Id)
    requires Wf(c, s) && id == s.nextId
    ensures id !in s.queue.All() && id !in s.elems
    ensures NoDup(s.queue.Create(id).All())
    ensures forall y :: y in s.queue.Create(id).All() <==> y == id || y in s.queue.All()
  {
    CreateLinks(s.queue, id);
  }

  /** The decorators that run after the element has been queued. */
  function AfterInsert(c: Config, s: State): (r: State)
    requires Wf(c, s)
    ensures Wf(c, r) && Tends(c, s, r) && Bounded(c, r)
    ensures s.queue.Balanced() ==> r.queue.Balanced()
    ensures r.queue.All() <= s.queue.All()
    ensures |r.buckets| == |s.buckets|
  {
    hide Wf, Tends, Cleanup;
    TendsRefl(c, s);
    var s1 := if c.queued then Cleanup(c, s) else s;
    var s2 := AccessOnCreate(c, s1);
    var r := ApplyMaxSize(c, s2);
    TendsTrans(c, s, s1, s2);
    TendsTrans(c, s, s2, r);
    r
  }

  lemma InsertFields(c: Config, s: State, k: Key, x: Slot, at: int)
    requires Wf(c, s) && !IsWeak(x)
    ensures var r := Insert(c, s, k, x, at);
      && s.nextId in r.elems && r.elems == s.elems[s.nextId := r.elems[s.nextId]]
      && r.nextId == s.nextId + 1 && r.now == s.now && r.born == s.born && |r.buckets| == |s.buckets|
      && r.futs == s.futs && r.waiters == s.waiters && Core(r.elems[s.nextId].slot) == Core(x)
      && r.elems[s.nextId].useCount == 1 && (s.queue.Balanced() ==> r.queue.Balanced())
  {
    hide Wf, Insert, Home, Queue.Create;
  }

  /** A new element for key `k`, with all the maintenance its creation triggers. It is still locked. */
  function Create(c: Config, s: State, k: Key, made: Made, at: int): (r: State)
    requires Wf(c, s) && !made.Throws?
    ensures Wf(c, r) && Bounded(c, r)
    ensures s.nextId in r.elems && r.elems[s.nextId].useCount == 1
    ensures s.queue.Balanced() ==> r.queue.Balanced()
    ensures |r.buckets| == |s.buckets|
  {
    hide Wf, Tends, AfterInsert, Inserted;
    var s1 := Invent(s, made, Late(c, s, at));
    WfFrame(c, s, s1);
    var s2 := Insert(c, s1, k, FirstSlot(made), at);
    InsertFields(c, s1, k, FirstSlot(made), at);
    var r := AfterInsert(c, s2);
    ServedStays(c, s2, r, s.nextId);
    r
  }

  /** A creation enters the queue between hot and cold; all that it evicts comes off the cold end. */
  lemma CreationEvictsTail(c: Config, s: State, k: Key, made: Made, at: int)
    requires Wf(c, s) && !made.Throws? && c.queued && s.queue.Balanced()
    ensures var r := Create(c, s, k, made, at);
      r.queue.Balanced() && r.queue.All() <= s.queue.Create(s.nextId).All()
    ensures c.maxSize.Some? && |s.queue.All()| == c.maxSize.value == |Create(c, s, k, made, at).queue.All()| ==>
      Arrives(s.queue, s.nextId, Create(c, s, k, made, at).queue, c.maxSize.value)
  {
    hide Wf, Tends, AfterInsert;
    WfFrame(c, s, Invent(s, made, Late(c, s, at)));
    assert Insert(c, Invent(s, made, Late(c, s, at)), k, FirstSlot(made), at).queue == s.queue.Create(s.nextId);
  }

  /** The deadlines of a new element are its creation plus the configured durations. */
  lemma InsertDeadlines(c: Config, s: State, k: Key, x: Slot, at: int)
    requires Wf(c, s) && !IsWeak(x)
    ensures var e := Insert(c, s, k, x, at).elems[s.nextId];
      && (c.accessExpire.Some? ==> e.access == at + c.accessExpire.value)
      && (c.maxAge.Some? ==> e.maxAge == at + c.maxAge.value)
      && forall s': State :: MaxAged(c, s', e) <==> Late(c, s', at)
  {
    hide Wf, Insert, Home, Queue.Create;
  }

  /** By age, a new element expires exactly when more than the configured duration has passed, whatever its creation
      evicted. */
  lemma CreateDeadline(c: Config, s: State, k: Key, made: Made, at: int)
    requires Wf(c, s) && !made.Throws?
    ensures var e := Create(c, s, k, made, at).elems[s.nextId];
      && (c.maxAge.Some? ==> e.maxAge == at + c.maxAge.value)
      && forall s': State :: MaxAged(c, s', e) <==> Late(c, s', at)
  {
    hide Wf, AfterInsert, Insert, Inserted;
    WfFrame(c, s, Invent(s, made, Late(c, s, at)));
    InsertDeadlines(c, Invent(s, made, Late(c, s, at)), k, FirstSlot(made), at);
    InsertFields(c, Invent(s, made, Late(c, s, at)), k, FirstSlot(made), at);
    var s2 := Insert(c, Invent(s, made, Late(c, s, at)), k, FirstSlot(made), at);
    assert SameElem(s2.elems[s.nextId], AfterInsert(c, s2).elems[s.nextId]);
  }

  /** `r` is `s` after maintenance plus one new, locked element `id`. */
  ghost predicate Joins(s: State, r: State, id: Id, k: Key, x: Content) {
    && id !in s.elems && id in r.elems && r.waiters == s.waiters
    && r.elems[id].key == k && r.elems[id].useCount == 1
    && Core(r.elems[id].slot) == x && !Marked(r.elems[id].slot)
    && (forall i :: i in r.elems && i != id ==> i in s.elems && SameElem(s.elems[i], r.elems[i]))
    && (forall i :: i in s.elems && i !in r.elems ==> s.elems[i].useCount == 0)
  }

  lemma JoinsTends(c: Config, s: State, r: State, r': State, id: Id, k: Key, x: Content)
    ensures Joins(s, r, id, k, x) && Tends(c, r, r') ==> Joins(s, r', id, k, x)
  {
  }

  lemma InsertJoins(c: Config, s: State, k: Key, made: Made, at: int)
    requires Wf(c, s) && Wf(c, Invent(s, made, Late(c, s, at))) && !made.Throws?
    ensures var r := Insert(c, Invent(s, made, Late(c, s, at)), k, FirstSlot(made), at);
      Joins(s, r, s.nextId, k, Core(FirstSlot(made)))
  {
    hide Wf, Home, Queue.Create, Insert;
    InsertLinked(c, s, s.nextId);
  }

  lemma CreateJoins(c: Config, s: State, k: Key, made: Made, at: int)
    requires Wf(c, s) && !made.Throws?
    ensures Joins(s, Create(c, s, k, made, at), s.nextId, k, Core(FirstSlot(made)))
  {
    hide Wf, Tends, AfterInsert, Insert, Joins;
    var s1 := Invent(s, made, Late(c, s, at));
    WfFrame(c, s, s1);
    InsertJoins(c, s, k, made, at);
    var s2 := Insert(c, s1, k, FirstSlot(made), at);
    JoinsTends(c, s, s2, AfterInsert(c, s2), s.nextId, k, Core(FirstSlot(made)));
  }

  lemma InventAlive(c: Config, s: State, made: Made, at: int, v: Ptr)
    requires Known(s) && Admissible(c, s, made)
    ensures Alive(Invent(s, made, Late(c, s, at)), v) ==> Alive(s, v) || (made.Ready? && v == made.v && v !in s.born)
  {
  }

  lemma InsertAlive(c: Config, s: State, k: Key, x: Slot, at: int, v: Ptr)
    requires Wf(c, s) && !IsWeak(x)
    ensures var r := Insert(c, s, k, x, at); Alive(r, v) ==> Alive(s, v) || Holds(s.futs, x, v)
  {
    hide Chained, Accounted, Home;
  }

  /** A creation brings no value to life except the one it made. */
  lemma InsertRevives(c: Config, s: State, k: Key, made: Made, at: int)
    requires Wf(c, s) && Wf(c, Invent(s, made, Late(c, s, at))) && Known(s)
    requires !made.Throws? && Admissible(c, s, made)
    ensures var r := Insert(c, Invent(s, made, Late(c, s, at)), k, FirstSlot(made), at);
      forall v :: Alive(r, v) ==> Alive(s, v) || (made.Ready? && v == made.v && v !in s.born)
  {
    hide Wf, Known, Alive, Invent;
    var s1 := Invent(s, made, Late(c, s, at));
    var x := FirstSlot(made);
    var r := Insert(c, s1, k, x, at);
    forall v | Alive(r, v) ensures Alive(s, v) || (made.Ready? && v == made.v && v !in s.born) {
      InventAlive(c, s, made, at, v);
      InsertAlive(c, s1, k, x, at, v);
      NewHolds(c, s, made, at, v);
    }
  }

  lemma NewHolds(c: Config, s: State, made: Made, at: int, v: Ptr)
    requires Admissible(c, s, made)
    ensures Holds(Invent(s, made, Late(c, s, at)).futs, FirstSlot(made), v) ==>
        made.Ready? && v == made.v && (v in s.born ==> Alive(s, v))
  {
  }

  /** One more element, and no known value comes back to life: that is a step forward. */
  lemma OneMoreLater(c: Config, s: State, r: State, e: Elem)
    requires s.nextId !in s.elems && r.elems == s.elems[s.nextId := e] && r.nextId == s.nextId + 1
    requires r.now == s.now && s.born <= r.born && |s.buckets| == |r.buckets|
    requires forall v :: v in s.born && Alive(r, v) ==> Alive(s, v)
    ensures Later(c, s, r, {})
  {
    hide Alive;
  }

  lemma OneMoreKnown(c: Config, s: State, r: State, e: Elem)
    requires Known(s)
    requires s.nextId !in s.elems && r.elems == s.elems[s.nextId := e] && r.nextId == s.nextId + 1
    requires r.waiters == s.waiters && s.born <= r.born
    requires forall v :: Alive(r, v) ==> v != Null && v in r.born
    requires forall f :: f in s.futs ==> f in r.futs
    requires forall f :: f in r.futs && r.futs[f].Some? ==> f in s.futs && s.futs[f] == r.futs[f]
    requires KnownContent(r, Core(e.slot))
    ensures Known(r)
  {
    hide Alive;
    forall id | id in r.elems ensures id < r.nextId && KnownContent(r, Core(r.elems[id].slot)) {
      if id != s.nextId {
        assert KnownContent(s, Core(s.elems[id].slot));
      }
    }
  }

  lemma InventFields(c: Config, s: State, made: Made, at: int)
    ensures var r := Invent(s, made, Late(c, s, at));
      && r.elems == s.elems && r.nextId == s.nextId && r.now == s.now && s.born <= r.born && r.buckets == s.buckets
      && r.waiters == s.waiters && (forall f :: f in s.futs ==> f in r.futs)
      && (made.Ready? ==> r.futs == s.futs && made.v in r.born)
      && (made.Promise? ==> r.futs == s.futs[made.f := None])
      && r.pinned == s.pinned + if made.Ready? && !Late(c, s, at) then {made.v} else {}
  {
  }

  lemma InsertEvolves(c: Config, s: State, k: Key, made: Made, at: int)
    requires Wf(c, s) && Wf(c, Invent(s, made, Late(c, s, at))) && Known(s)
    requires !made.Throws? && Admissible(c, s, made)
    ensures var r := Insert(c, Invent(s, made, Late(c, s, at)), k, FirstSlot(made), at); Later(c, s, r, {}) && Known(r)
  {
    hide Wf, Known, Alive, Insert, Inserted, Later, Home, Invent;
    InsertLinked(c, s, s.nextId);
    InsertRevives(c, s, k, made, at);
    AliveKnown(s);
    InventFields(c, s, made, at);
    InsertFields(c, Invent(s, made, Late(c, s, at)), k, FirstSlot(made), at);
    var r := Insert(c, Invent(s, made, Late(c, s, at)), k, FirstSlot(made), at);
    OneMoreLater(c, s, r, r.elems[s.nextId]);
    OneMoreKnown(c, s, r, r.elems[s.nextId]);
  }

  lemma AliveKnown(s: State)
    ensures Known(s) ==> forall v :: Alive(s, v) ==> v != Null && v in s.born
  {
  }

  lemma CreateLater(c: Config, s: State, k: Key, made: Made, at: int)
    requires Wf(c, s) && Known(s) && !made.Throws? && Admissible(c, s, made)
    ensures var r := Create(c, s, k, made, at); Later(c, s, r, {}) && Known(r) && r.nextId == s.nextId + 1
  {
    hide Wf, Tends, AfterInsert, Insert, Later, Known;
    var s1 := Invent(s, made, Late(c, s, at));
    WfFrame(c, s, s1);
    InsertEvolves(c, s, k, made, at);
    var s2 := Insert(c, s1, k, FirstSlot(made), at);
    var r := AfterInsert(c, s2);
    KnownTends(c, s2, r);
    TendsLater(c, s2, r, {});
    LaterTrans(c, s, s2, r, {});
    SameNext(c, s2, r);
  }

  lemma SameNext(c: Config, s: State, s': State)
    ensures Tends(c, s, s') ==>
      && s'.nextId == s.nextId && s'.pinned == s.pinned && s'.waiters == s.waiters
      && s'.futs == s.futs && s'.lf == s.lf && s'.born == s.born
  {
  }

  // ----- the invariant between critical sections

  ghost predicate Inv(c: Config, s: State) {
    && Wf(c, s) && Known(s) && Locks(c, s) && Unique(c, s)
    && s.queue.Balanced() && Bounded(c, s)
    && s.pinned == {} && s.lf > 0.0
  }

  /** The decorators that bound the queue or expire by access bring the queue with them. */
  ghost predicate Valid(c: Config) {
    c.wordSize > 0 && (c.maxSize.Some? || c.accessExpire.Some? ==> c.queued)
  }

  // ----- the critical sections

  datatype Answer = Returned(v: Ptr) | Waiting(f: Fut) | Absent | Threw

  /** The answer to a caller who asks for content `x`. */
  function Hands(x: Content): Answer {
    match x
    case Nothing => Absent
    case Value(v) => Returned(v)
    case Future(f) => Waiting(f)
  }

  datatype Reply = Reply(s: State, answer: Answer, created: bool)

  function Find(c: Config, s: State, k: Key): (r: Found)
    requires Wf(c, s)
    ensures ScanOk(c, s, k, r)
  {
    hide ScanOk, Home;
    Scan(c, s, BucketOf(c, s, k), 0, k, true)
  }

  /** What a lookup of `k` that misses gets from the create function. */
  function Asked(c: Config, s: State, k: Key, made: Made): Made
    requires Wf(c, s)
  {
    Effective(c, MadeAt(c, s, k), made)
  }

  /** The lookup of `k` has missed; the decorators read the clock to set the deadlines of the new element. */
  function AskedAt(c: Config, s: State, k: Key): State
    requires Wf(c, s)
  {
    Observe(c, Find(c, s, k).s)
  }

  /** Then the create function has run, for however long, and the new element is asked for its pointer. */
  function MadeAt(c: Config, s: State, k: Key): State
    requires Wf(c, s)
  {
    Observe(c, AskedAt(c, s, k))
  }

  /** Did the creation take longer than the age limit allows? */
  predicate Slow(c: Config, s: State, k: Key)
    requires Wf(c, s)
  {
    Late(c, MadeAt(c, s, k), AskedAt(c, s, k).now)
  }

  /** Hands the content of a served element to thread `t`: a pointer at once, a future to wait for outside the mutex. */
  function Deliver(s: State, t: Tid, got: Content): (State, Answer) {
    match got
    case Nothing => (s, Absent)
    case Value(v) => (s, Returned(v))
    case Future(f) => (s.(waiters := s.waiters[t := Join(f)]), Waiting(f))
  }

  /** `get`, up to the point where the mutex is released for the first time. */
  function Get(c: Config, s: State, t: Tid, k: Key, made: Made): (r: Reply)
    requires Valid(c) && Inv(c, s) && t !in s.waiters
  {
    match Find(c, s, k)
    case Hit(s1, id, got) =>
      var (s2, answer) := Deliver(Serve(c, s1, id), t, got);
      Reply(s2, answer, false)
    case Miss(s1) =>
      var s2 := Observe(c, s1);
      var s3 := Observe(c, s2);
      var got := Effective(c, s3, made);
      if got.Throws? then Reply(s3, Threw, false) else
      var s4 := Create(c, s3, k, got, s2.now);
      var id := s3.nextId;
      if Late(c, s3, s2.now) then Reply(FinishNow(c, s4, id, {}), Returned(Null), true)
      else if got.Ready? then Reply(FinishNow(c, s4, id, {got.v}), Returned(got.v), true)
      else Reply(FinishPromise(s4, t, id, got.f), Waiting(got.f), true)
  }

  /** A creation that ends in the same critical section: growth, release of the lock, and what it has to give to the
      caller. A synchronous creation gives its pointer. One that outlasted the age limit gives nothing: the new element
      answers with null, be it synchronous or not, and nobody will resolve it. */
  function FinishNow(c: Config, s: State, id: Id, given: set<Ptr>): State
    requires Wf(c, s) && s.lf > 0.0 && c.wordSize > 0 && id in s.elems && s.elems[id].useCount > 0
  {
    var s1 := MaybeRehash(c, s);
    ServedStays(c, s, s1, id);
    WithLock(s1, id, -1).(pinned := {}, held := s1.held + given)
  }

  /** An asynchronous creation leaves the critical section with the element pending and locked by thread `t`. */
  function FinishPromise(s: State, t: Tid, id: Id, f: Fut): State {
    s.(waiters := s.waiters[t := Creator(f, id)])
  }

  /** `get_if_present`: read-only; a pending element is joined. */
  function Peek(c: Config, s: State, t: Tid, k: Key): (r: Reply)
    requires Wf(c, s) && t !in s.waiters
  {
    match PeekScan(c, s, BucketOf(c, s, k), 0, k)
    case Miss(s1) => Reply(s1, Absent, false)
    case Hit(s1, id, got) =>
      var (s2, answer) := Deliver(s1.(held := s1.held + Pins(got)), t, got);
      Reply(s2, answer, false)
  }

  datatype Forgotten = Forgotten(s: State, found: bool)

  /** `expire`: the first unexpired element of the key is expired and, unless it is locked, erased. */
  function Forget(c: Config, s: State, k: Key): (r: Forgotten)
    requires Inv(c, s)
  {
    match Scan(c, s, BucketOf(c, s, k), 0, k, false)
    case Miss(s1) => Forgotten(s1, false)
    case Hit(s1, id, _) =>
      LocksTends(c, s, s1);
      Forgotten(Strike(c, s1, id), true)
  }

  predicate Settled(s: State, f: Fut) {
    f in s.futs && s.futs[f].Some?
  }

  function ValueOf(o: Outcome): set<Ptr> {
    if o.Done? then {o.v} - {Null} else {}
  }

  function AnswerOf(o: Outcome): Answer {
    match o
    case Failed => Threw
    case Done(v) => Returned(v)
  }

  /** The creator wakes up, takes the mutex again and installs the result in the element. The exception path skips the
      growth. */
  function Finish(c: Config, s: State, t: Tid): (r: Reply)
    requires Valid(c) && Inv(c, s) && t in s.waiters && s.waiters[t].Creator? && Settled(s, s.waiters[t].fut)
  {
    var Creator(f, id) := s.waiters[t];
    var o := s.futs[f].value;
    assert Creates(s, t, id);
    var s1 := Install(s, id, o);
    InstallWf(c, s, id, o);
    var s2 := if o.Failed? then s1 else MaybeRehash(c, s1);
    TendsRefl(c, s1);
    ServedStays(c, s1, s2, id);
    Reply(Release(s2, t, id, o), AnswerOf(o), false)
  }

  /** `created->resolve()` with the result pinned by the local pointer. */
  function Install(s: State, id: Id, o: Outcome): State
    requires id in s.elems
  {
    WithSlot(s, id, Resolved(s.elems[id].slot, o)).(pinned := ValueOf(o))
  }

  function Release(s: State, t: Tid, id: Id, o: Outcome): State
    requires id in s.elems && s.elems[id].useCount > 0
  {
    WithLock(s, id, -1).(pinned := {}, held := s.held + ValueOf(o), waiters := s.waiters - {t})
  }

  lemma InstallWf(c: Config, s: State, id: Id, o: Outcome)
    requires id in s.elems
    ensures Wf(c, s) ==> Wf(c, Install(s, id, o))
  {
    hide Chained, Accounted;
    ChainedFrame(c, s, Install(s, id, o));
  }

  /** A thread that joined another's creation wakes up with the outcome of the future. */
  function Wake(s: State, t: Tid): Reply
    requires t in s.waiters && Settled(s, s.waiters[t].fut)
  {
    var o := s.futs[s.waiters[t].fut].value;
    Reply(s.(waiters := s.waiters - {t}, held := s.held + ValueOf(o)), AnswerOf(o), false)
  }

  /** A future completes, outside the cache, with an exception or with a pointer that is null, new or still alive. */
  function Complete(s: State, f: Fut, o: Outcome): State {
    s.(futs := s.futs[f := Some(o)], born := s.born + ValueOf(o))
  }

  predicate CanComplete(s: State, f: Fut, o: Outcome) {
    && f in s.futs && s.futs[f].None?
    && (o.Done? && o.v in s.born ==> Alive(s, o.v))
  }

  /** `max_load_factor`: rejects a factor that is not positive. */
  function Tune(c: Config, s: State, lf: real): (r: State)
    requires Valid(c) && Inv(c, s)
  {
    if lf <= 0.0 then s else
    var s1 := s.(lf := lf);
    WfFrame(c, s, s1);
    MaybeRehash(c, s1)
  }
}
