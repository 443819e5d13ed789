/** What one whole `get` or `expire` does to the queue, to the deadlines and to what it meets on its way. */
module Effects {
  import opened Sequences
  import opened QueueModel
  import opened ElementState
  import opened CacheState
  import opened Maintenance
  import opened Lookup
  import opened Resize
  import opened Evolution
  import opened Operations
  import opened Sections
  import opened Pruning
  import opened Trimming

  // ----- from the callbacks to the end of the call

  /** The clauses hold for a later state with the same queue, in which no fewer elements are dead or gone. */
  lemma TrimmedTo(c: Config, s: State, r: State, r': State, id: Id, q: seq<Id>, l: seq<Id>, m: nat, n: nat)
    requires TrimmedAt(c, s, r, id, q, l, m, n) && r.now <= r'.now
    requires id in r.elems && id in r'.elems && r'.elems[id].access == r.elems[id].access
    requires forall x :: x in r'.elems ==> x in r.elems
    requires forall x :: x in s.elems && Dead(c, r, s.elems[x]) ==> Dead(c, r', s.elems[x])
    ensures TrimmedAt(c, s, r', id, q, l, m, n)
  {
    hide Dead, Limited;
  }

  lemma DeadWhen(c: Config, r: State, r': State, e: Elem)
    requires r.now <= r'.now && forall v :: Alive(r', v) ==> Alive(r, v)
    ensures Dead(c, r, e) ==> Dead(c, r', e)
  {
  }

  // ----- a hit

  /** The state in which the callbacks of a hit run: the element is locked and its pointee pinned. */
  function Entered(s: State, id: Id, got: Content): State
    requires id in s.elems
  {
    WithLock(s, id, 1).(pinned := s.pinned + Pins(got))
  }

  lemma EnteredSecured(c: Config, s: State, id: Id)
    requires Wf(c, s) && id in s.elems && !Dead(c, s, s.elems[id])
    ensures var s' := Entered(s, id, Core(s.elems[id].slot));
      && Wf(c, s') && Secured(s', id) && s'.queue == s.queue && s'.now == s.now
      && (forall v :: Alive(s', v) ==> Alive(s, v))
  {
    var s' := Entered(s, id, Core(s.elems[id].slot));
    LockWf(c, s, id, 1, s');
    hide Wf;
    forall v | Alive(s', v) ensures Alive(s, v) {}
  }

  lemma ServeLeaves(c: Config, s: State, id: Id)
    requires Wf(c, s) && id in s.elems && !Dead(c, s, s.elems[id])
    ensures var got := Core(s.elems[id].slot); var s' := Entered(s, id, got);
      && Wf(c, s') && Secured(s', id)
      && var s2, r := OnHit(c, s', id), Serve(c, s, id);
         && r.queue == s2.queue && r.now == s2.now && r.elems.Keys == s2.elems.Keys
         && (forall x :: x in r.elems ==> r.elems[x].access == s2.elems[x].access)
         && (forall v :: Alive(r, v) ==> Alive(s2, v))
  {
    hide Wf, OnHit, Alive, Dead, Secured, Tends, Bounded;
    EnteredSecured(c, s, id);
    var s' := Entered(s, id, Core(s.elems[id].slot));
    var s2, r := OnHit(c, s', id), Serve(c, s, id);
    SameNext(c, s', s2);
    ServedStays(c, s', s2, id);
    assert r == WithLock(s2, id, -1).(pinned := s.pinned, held := s2.held + Pins(Core(s.elems[id].slot)));
    forall v ensures Alive(r, v) ==> Alive(s2, v) {
      SlotsAlive(r, s2, v);
    }
  }

  /** The decorators of a hit, seen from the state in which the element was found. */
  lemma ServeTrims(c: Config, s: State, id: Id)
    requires Wf(c, s) && id in s.elems && !Dead(c, s, s.elems[id]) && c.queued
    ensures var r := Serve(c, s, id); var q := Moved(s.queue, id);
      && id in r.elems && AccessKept(s, r, id) && s.now <= r.now
      && (exists m: nat, n: nat :: TrimmedAt(c, s, r, id, q, r.queue.All(), m, n) && Place(s.queue, id) < n)
      && (c.accessExpire.Some? ==> s.now + c.accessExpire.value <= r.elems[id].access <= r.now + c.accessExpire.value)
  {
    hide Wf, Dead, Alive, OnHit, TrimmedAt, Moved, Place, Serve, Secured;
    var s' := Entered(s, id, Core(s.elems[id].slot));
    ServeLeaves(c, s, id);
    EnteredSecured(c, s, id);
    OnHitTrims(c, s', id);
    var s2, r, q := OnHit(c, s', id), Serve(c, s, id), Moved(s.queue, id);
    var m: nat, n: nat :| TrimmedAt(c, s', s2, id, q, s2.queue.All(), m, n) && Place(s.queue, id) < n;
    MovedMembers(c, s, id);
    forall x | x in q && x != id && Dead(c, s, s.elems[x]) ensures Dead(c, s', s'.elems[x]) {
      DeadWhen(c, s, s', s.elems[x]);
    }
    TrimmedFrom(c, s, s', s2, id, q, s2.queue.All(), m, n);
    forall x | x in s.elems && Dead(c, s2, s.elems[x]) ensures Dead(c, r, s.elems[x]) {
      DeadWhen(c, s2, r, s.elems[x]);
    }
    TrimmedTo(c, s, s2, r, id, q, r.queue.All(), m, n);
  }

  lemma MovedMembers(c: Config, s: State, id: Id)
    requires Wf(c, s)
    ensures forall x :: x in Moved(s.queue, id) && x != id ==> x in s.elems
  {
    hide Chained, Accounted, Coupled, NoDup, Remove;
  }

  /** After a `get` that found element `id`: it leads the queue, or stands between the halves if it was not linked; the
      others keep their order, and what is missing at the cold end was dead, stale or more than `max_size`. Its access
      deadline is one full duration after a moment during the call, all other deadlines stay. */
  lemma GetHitTrims(c: Config, s: State, t: Tid, k: Key, made: Made)
    requires Valid(c) && Inv(c, s) && t !in s.waiters && Find(c, s, k).Hit? && c.queued
    ensures var f, r := Find(c, s, k), Get(c, s, t, k, made).s; var q := Moved(f.s.queue, f.id);
      && f.id in f.s.elems && f.id in r.elems && AccessKept(f.s, r, f.id)
      && (exists m: nat, n: nat ::
            TrimmedAt(c, f.s, r, f.id, q, r.queue.All(), m, n) && Place(f.s.queue, f.id) < n)
      && (c.accessExpire.Some? ==>
            f.s.now + c.accessExpire.value <= r.elems[f.id].access <= r.now + c.accessExpire.value)
  {
    hide Wf, Tends, Known, Locks, Unique, Dead, Alive, TrimmedAt, Moved, Place, Serve, Find;
    var f, r := Find(c, s, k), Get(c, s, t, k, made).s;
    FoundLive(c, s, k, f);
    var r0 := Serve(c, f.s, f.id);
    ServeTrims(c, f.s, f.id);
    var q := Moved(f.s.queue, f.id);
    var m: nat, n: nat :| TrimmedAt(c, f.s, r0, f.id, q, r0.queue.All(), m, n) && Place(f.s.queue, f.id) < n;
    DeliverAlive(c, f.s, r0, t, f.id, f.got);
    forall x | x in f.s.elems && Dead(c, r0, f.s.elems[x]) ensures Dead(c, r, f.s.elems[x]) {
      DeadWhen(c, r0, r, f.s.elems[x]);
    }
    TrimmedTo(c, f.s, r0, r, f.id, q, r.queue.All(), m, n);
  }

  lemma FoundLive(c: Config, s: State, k: Key, f: Found)
    requires ScanOk(c, s, k, f) && f.Hit?
    ensures Wf(c, f.s) && Tends(c, s, f.s) && f.id in f.s.elems && f.s.elems[f.id].key == k
    ensures !Dead(c, f.s, f.s.elems[f.id]) && Core(f.s.elems[f.id].slot) == f.got
  {
  }

  lemma DeliverAlive(c: Config, s: State, r: State, t: Tid, id: Id, got: Content)
    requires Wf(c, s) && id in s.elems && !Dead(c, s, s.elems[id]) && Core(s.elems[id].slot) == got && t !in s.waiters
    requires r == Serve(c, s, id)
    ensures var r' := Deliver(r, t, got).0;
      && r'.elems == r.elems && r'.queue == r.queue && r'.now == r.now && forall v :: Alive(r', v) ==> Alive(r, v)
  {
    ServeTends(c, s, id);
    hide Wf, Alive, Dead, Serve;
    ServedUnchanged(c, s, r, id);
    if got.Future? {
      WaitSameLife(r, t, Join(got.f), id);
    }
  }

  lemma TrimmedPlace(c: Config, s: State, r: State, id: Id, q: seq<Id>, l: seq<Id>, m: nat, n: nat, p: nat)
    requires TrimmedAt(c, s, r, id, q, l, m, n) && p < n && p < |q| && q[p] == id
    requires forall i :: 0 <= i < |q| && i != p ==> q[i] != id
    ensures (id in l <==> p < |l| && l[p] == id) && (id in l <==> (c.maxSize.Some? ==> p < c.maxSize.value))
  {
    hide Perished, Firm, DeadlineOf;
    assert q[..n][p] == id;
    if id in l {
      var i :| 0 <= i < |l| && l[i] == id;
      assert q[i] == id;
    }
    if c.maxSize.Some? ==> p < c.maxSize.value {
      assert p < |l| && l[p] == q[p];
    }
  }

  lemma RoomOnQueue(q: Queue<Id>, n: nat)
    requires q.Balanced() && |q.All()| <= n
    ensures |q.hot| < n <==> !(n == 0 || (n == 1 && q.hot != []))
  {
  }

  /** The element that was found is linked afterwards, at its place, unless there is no room for it: the queue may hold
      nothing, or it may hold one, the element was not linked, and a hot one is. */
  lemma GetHitLinks(c: Config, s: State, t: Tid, k: Key, made: Made)
    requires Valid(c) && Inv(c, s) && t !in s.waiters && Find(c, s, k).Hit? && c.queued
    ensures var f, r := Find(c, s, k), Get(c, s, t, k, made).s; var l := r.queue.All();
      && (f.id in l <==> Place(f.s.queue, f.id) < |l| && l[Place(f.s.queue, f.id)] == f.id)
      && (f.id in l <==>
            !(c.maxSize == Some(0) || (c.maxSize == Some(1) && f.id !in f.s.queue.All() && f.s.queue.hot != [])))
  {
    hide Wf, Tends, Known, Locks, Unique, Dead, TrimmedAt, Moved, Find, FoundOk, Get;
    var f, r := Find(c, s, k), Get(c, s, t, k, made).s;
    GetHitTrims(c, s, t, k, made);
    var q := Moved(f.s.queue, f.id);
    var m: nat, n: nat :| TrimmedAt(c, f.s, r, f.id, q, r.queue.All(), m, n) && Place(f.s.queue, f.id) < n;
    WfLinked(c, f.s);
    MovedPlace(f.s.queue, f.id);
    TrimmedPlace(c, f.s, r, f.id, q, r.queue.All(), m, n, Place(f.s.queue, f.id));
    if c.maxSize.Some? {
      RoomOnQueue(f.s.queue, c.maxSize.value);
    }
  }

  // ----- the cold end is fresh

  /** Unless elements were cut because of `max_size`, the coldest element that is left is not stale. */
  lemma TrimmedFresh(c: Config, s: State, r: State, id: Id, q: seq<Id>, l: seq<Id>, m: nat, n: nat)
    requires TrimmedAt(c, s, r, id, q, l, m, n) && c.accessExpire.Some? && l != []
    requires c.maxSize.Some? ==> |l| < c.maxSize.value
    ensures DeadlineOf(s, r, id, l[|l| - 1]) >= s.now
  {
  }

  lemma DeadlineKept(s: State, r: State, id: Id, x: Id)
    requires AccessKept(s, r, id) && x in r.elems
    ensures DeadlineOf(s, r, id, x) == r.elems[x].access
  {
  }

  /** When a creation is over, the deadline of the coldest linked element had not passed when it began, unless the
      queue is as long as `max_size` allows. */
  lemma CreateFresh(c: Config, s: State, k: Key, made: Made, at: int)
    requires Wf(c, s) && Known(s) && !made.Throws? && Admissible(c, s, made) && c.accessExpire.Some?
    ensures var r := Create(c, s, k, made, at); var l := r.queue.All();
      l != [] && (c.maxSize.Some? ==> |l| < c.maxSize.value) ==>
        l[|l| - 1] in r.elems && r.elems[l[|l| - 1]].access >= s.now
  {
    hide Wf, Known, Admissible, TrimmedAt, DeadlineOf, Create, AccessKept;
    var r, id := Create(c, s, k, made, at), s.nextId;
    CreateTrims(c, s, k, made, at);
    var q := if c.queued then Moved(s.queue, id) else s.queue.All();
    var m: nat, n: nat :| TrimmedAt(c, s, r, id, q, r.queue.All(), m, n);
    LinkedExists(c, r);
    var l := r.queue.All();
    if l != [] && (c.maxSize.Some? ==> |l| < c.maxSize.value) {
      TrimmedFresh(c, s, r, id, q, l, m, n);
      DeadlineKept(s, r, id, l[|l| - 1]);
    }
  }

  /** The same for a `get` that found an element. */
  lemma GetHitFresh(c: Config, s: State, t: Tid, k: Key, made: Made)
    requires Valid(c) && Inv(c, s) && t !in s.waiters && Find(c, s, k).Hit? && c.accessExpire.Some?
    ensures var r := Get(c, s, t, k, made).s; var l := r.queue.All();
      l != [] && (c.maxSize.Some? ==> |l| < c.maxSize.value) ==>
        l[|l| - 1] in r.elems && r.elems[l[|l| - 1]].access >= Find(c, s, k).s.now >= s.now
  {
    hide Wf, Known, Locks, Unique, TrimmedAt, DeadlineOf, AccessKept, Find, Get, Moved, Place, Later, FoundOk, Tends;
    var f, r := Find(c, s, k), Get(c, s, t, k, made).s;
    GetHitTrims(c, s, t, k, made);
    GetKeeps(c, s, t, k, made);
    var q := Moved(f.s.queue, f.id);
    var m: nat, n: nat :| TrimmedAt(c, f.s, r, f.id, q, r.queue.All(), m, n);
    LinkedExists(c, r);
    TendsNow(c, s, f.s);
    var l := r.queue.All();
    if l != [] && (c.maxSize.Some? ==> |l| < c.maxSize.value) {
      TrimmedFresh(c, f.s, r, f.id, q, l, m, n);
      DeadlineKept(f.s, r, f.id, l[|l| - 1]);
    }
  }

  // ----- a miss

  /** The section that created element `id` and left state `s` goes on to `r`: full maintenance may have erased dead
      elements, the order of the others is kept, and nothing has revived. */
  ghost predicate Closes(s: State, r: State, id: Id) {
    && s.now <= r.now && r.elems.Keys <= s.elems.Keys && id in r.elems
    && (forall x :: x in r.elems ==> r.elems[x].access == s.elems[x].access)
    && r.queue.All() == Those(s.queue.All(), r.elems.Keys)
    && (forall v :: Alive(r, v) ==> Alive(s, v))
  }

  lemma FinishCloses(c: Config, s: State, id: Id, given: set<Ptr>)
    requires Wf(c, s) && s.lf > 0.0 && c.wordSize > 0 && id in s.elems && s.elems[id].useCount > 0
    requires given <= s.pinned
    ensures Closes(s, FinishNow(c, s, id, given), id)
  {
    hide Wf, Tends, Alive, MaybeRehash, Those;
    var s1, r := MaybeRehash(c, s), FinishNow(c, s, id, given);
    MaybeRehashPruned(c, s);
    ServedStays(c, s, s1, id);
    SameNext(c, s, s1);
    TendsNow(c, s, s1);
    assert r.elems.Keys == s1.elems.Keys;
    forall v | Alive(r, v) ensures Alive(s, v) {
      SlotsAlive(r, s1, v);
      StillAlive(c, s, s1, v);
    }
  }

  lemma StillAlive(c: Config, s: State, r: State, v: Ptr)
    ensures Tends(c, s, r) && Alive(r, v) ==> Alive(s, v)
  {
  }

  lemma PromiseCloses(c: Config, s: State, t: Tid, id: Id, f: Fut)
    requires Wf(c, s) && id in s.elems && Core(s.elems[id].slot) == Future(f) && t !in s.waiters
    ensures Closes(s, FinishPromise(s, t, id, f), id)
  {
    WaitSameLife(s, t, Creator(f, id), id);
    PrunedRefl(c, s, s);
    hide Wf, Alive, Those;
  }

  lemma ClosesTrims(c: Config, s: State, r: State, r': State, id: Id, q: seq<Id>)
    requires exists m: nat, n: nat :: TrimmedAt(c, s, r, id, q, r.queue.All(), m, n)
    requires id in r.elems && Closes(r, r', id) && AccessKept(s, r, id)
    ensures AccessKept(s, r', id) && exists m: nat, n: nat, l: seq<Id> ::
      TrimmedAt(c, s, r', id, q, l, m, n) && r'.queue.All() == Those(l, r'.elems.Keys)
  {
    hide Dead, TrimmedAt, Those, Alive;
    var m: nat, n: nat :| TrimmedAt(c, s, r, id, q, r.queue.All(), m, n);
    forall x | x in s.elems && Dead(c, r, s.elems[x]) ensures Dead(c, r', s.elems[x]) {
      DeadWhen(c, r, r', s.elems[x]);
    }
    TrimmedTo(c, s, r, r', id, q, r.queue.All(), m, n);
  }

  /** What follows a creation in the same section. */
  lemma GetMissCloses(c: Config, s: State, t: Tid, k: Key, made: Made)
    requires Valid(c) && Inv(c, s) && t !in s.waiters && Find(c, s, k).Miss? && !Asked(c, s, k, made).Throws?
    ensures var s3 := MadeAt(c, s, k); var s4 := Create(c, s3, k, Asked(c, s, k, made), AskedAt(c, s, k).now);
      && s3.nextId == s.nextId && Wf(c, s3) && Known(s3) && Admissible(c, s3, Asked(c, s, k, made))
      && Closes(s4, Get(c, s, t, k, made).s, s.nextId)
  {
    hide Wf, Tends, Known, Locks, Unique, Find, Create, FinishNow, Effective, Alive, Closes, Observe, Late;
    var s1, s2, s3 := Find(c, s, k).s, AskedAt(c, s, k), MadeAt(c, s, k);
    TendsTrans(c, s1, s2, s3);
    TendsTrans(c, s, s1, s3);
    SameNext(c, s, s3);
    KnownTends(c, s, s3);
    var m := Asked(c, s, k, made);
    var s4 := Create(c, s3, k, m, s2.now);
    CreateFields(c, s3, k, m, s2.now);
    if Slow(c, s, k) {
      FinishCloses(c, s4, s.nextId, {});
    } else if m.Ready? {
      FinishCloses(c, s4, s.nextId, {m.v});
    } else {
      CreatedFuture(c, s3, k, m, s2.now);
      PromiseCloses(c, s4, t, s.nextId, m.f);
    }
  }

  lemma CreatedFuture(c: Config, s: State, k: Key, made: Made, at: int)
    requires Wf(c, s) && !made.Throws?
    ensures var r := Create(c, s, k, made, at);
      s.nextId in r.elems && Core(r.elems[s.nextId].slot) == Core(FirstSlot(made))
  {
    hide Wf, Create;
    CreateJoins(c, s, k, made, at);
  }

  /** After a `get` that created element `id`: it entered between the halves, its access deadline counts from before
      the create function ran, and the cleanup, the access decorator and the size limit have cut the cold end. A
      growth of the table may have erased dead elements from what was left. */
  lemma GetMissTrims(c: Config, s: State, t: Tid, k: Key, made: Made)
    requires Valid(c) && Inv(c, s) && t !in s.waiters && Find(c, s, k).Miss? && !Asked(c, s, k, made).Throws?
    ensures var s3, r := MadeAt(c, s, k), Get(c, s, t, k, made).s; var id := s.nextId;
      var q := if c.queued then Moved(s3.queue, id) else s3.queue.All();
      && id in r.elems && AccessKept(s3, r, id)
      && (c.accessExpire.Some? ==> r.elems[id].access == AskedAt(c, s, k).now + c.accessExpire.value)
      && (exists m: nat, n: nat, l: seq<Id> ::
            TrimmedAt(c, s3, r, id, q, l, m, n) && r.queue.All() == Those(l, r.elems.Keys))
  {
    hide Wf, Tends, Known, Locks, Unique, Find, Create, Alive, TrimmedAt, Moved, Those, Get, MadeAt, AskedAt;
    hide Admissible, AccessKept;
    var s3, id := MadeAt(c, s, k), s.nextId;
    var m := Asked(c, s, k, made);
    GetMissCloses(c, s, t, k, made);
    CreateTrims(c, s3, k, m, AskedAt(c, s, k).now);
    var s4, r := Create(c, s3, k, m, AskedAt(c, s, k).now), Get(c, s, t, k, made).s;
    ClosesTrims(c, s3, s4, r, id, if c.queued then Moved(s3.queue, id) else s3.queue.All());
  }

  // ----- what the search of a section erases

  /** The search for a key, from the head of its bucket, takes nothing away but dead, unlocked elements, and every such
      element that stands before the match, or anywhere in the bucket if there is no match. */
  lemma SearchClears(c: Config, s: State, k: Key, recheck: bool, j: nat)
    requires Wf(c, s) && j < |s.buckets[BucketOf(c, s, k)]|
    requires Doomed(c, s, s.buckets[BucketOf(c, s, k)][j])
    ensures var b, r := BucketOf(c, s, k), Sought(c, s, k, recheck);
      s.buckets[b][j] !in r.s.elems || HitBefore(s, b, 0, j, r)
  {
    hide Wf, Dead, ScanOk;
    DeadBeforeNone(c, s, BucketOf(c, s, k), k);
    ScanClears(c, s, BucketOf(c, s, k), 0, k, recheck, j);
  }

  lemma GetClears(c: Config, s: State, t: Tid, k: Key, made: Made, j: nat)
    requires Valid(c) && Inv(c, s) && t !in s.waiters && j < |s.buckets[BucketOf(c, s, k)]|
    requires Doomed(c, s, s.buckets[BucketOf(c, s, k)][j])
    ensures var b := BucketOf(c, s, k);
      s.buckets[b][j] !in Get(c, s, t, k, made).s.elems || HitBefore(s, b, 0, j, Find(c, s, k))
    ensures Pruned(s, Find(c, s, k).s)
  {
    hide Wf, Known, Locks, Unique, Dead, Scan, Get, Tends, FoundOk, Pruned, HitBefore;
    SearchClears(c, s, k, true, j);
    DeadBeforeNone(c, s, BucketOf(c, s, k), k);
    ScanPruned(c, s, BucketOf(c, s, k), 0, k, true);
    GetOnlyAdds(c, s, t, k, made);
    OldNumber(s, s.buckets[BucketOf(c, s, k)][j]);
    FoundNumber(c, s, k);
  }

  lemma OldNumber(s: State, x: Id)
    requires Known(s)
    ensures x in s.elems ==> x < s.nextId
  {
  }

  lemma FoundNumber(c: Config, s: State, k: Key)
    requires Wf(c, s)
    ensures Find(c, s, k).s.nextId == s.nextId
  {
    hide Wf, Tends, Find, FoundOk;
    SameNext(c, s, Find(c, s, k).s);
  }

  /** After the search no element appears but the new one. */
  lemma GetOnlyAdds(c: Config, s: State, t: Tid, k: Key, made: Made)
    requires Valid(c) && Inv(c, s) && t !in s.waiters
    ensures var f := Find(c, s, k).s;
      forall x :: x in Get(c, s, t, k, made).s.elems && x < f.nextId ==> x in f.elems
  {
    hide Wf, Known, Locks, Unique, Find, Get;
    if Find(c, s, k).Hit? {
      GetHit(c, s, t, k, made);
    } else {
      GetMiss(c, s, t, k, made);
    }
  }

  // ----- `expire`

  /** `expire` leaves all other elements and the order of the queue alone: what is missing afterwards was dead, or it
      is the element that was expired, and a pending one is only marked. */
  lemma ForgetLeaves(c: Config, s: State, k: Key)
    requires Inv(c, s)
    ensures var r := Forget(c, s, k).s;
      && r.elems.Keys <= s.elems.Keys && r.queue.All() == Those(s.queue.All(), r.elems.Keys)
      && (forall x :: x in r.elems ==>
            || r.elems[x] == s.elems[x]
            || (&& s.elems[x].key == k && s.elems[x].slot.Pending?
                && r.elems[x] == s.elems[x].(slot := s.elems[x].slot.(expired := true))))
  {
    hide Wf, Tends, Known, Locks, Unique, Scan, Dead, DeadBefore, Those;
    DeadBeforeNone(c, s, BucketOf(c, s, k), k);
    var f := Scan(c, s, BucketOf(c, s, k), 0, k, false);
    ScanPruned(c, s, BucketOf(c, s, k), 0, k, false);
    LocksTends(c, s, f.s);
    if f.Hit? {
      FoundLive(c, s, k, f);
      StrikeLeaves(c, f.s, f.id);
      ThoseThose(s.queue.All(), f.s.elems.Keys, Strike(c, f.s, f.id).elems.Keys);
    }
  }

  lemma StrikeLeaves(c: Config, s: State, id: Id)
    requires Wf(c, s) && Locks(c, s) && id in s.elems && !Dead(c, s, s.elems[id])
    ensures s.elems[id].slot.Pending? ==> s.elems[id].useCount > 0
    ensures var r := Strike(c, s, id);
      && r.elems.Keys <= s.elems.Keys && r.queue.All() == Those(s.queue.All(), r.elems.Keys)
      && (forall x :: x in r.elems && x != id ==> r.elems[x] == s.elems[x])
      && (id in r.elems ==> s.elems[id].slot.Pending?)
      && (id in r.elems ==> r.elems[id] == s.elems[id].(slot := s.elems[id].slot.(expired := true)))
  {
    hide Wf, Tends, Those, Home, Alive, Erase, Pruned;
    var s1 := WithSlot(s, id, ElementState.Expired(s.elems[id].slot));
    StrikeWf(c, s, id);
    LockedPending(c, s, id);
    PrunedRefl(c, s1, s1);
    if s.elems[id].useCount == 0 {
      ErasePruned(c, s1, id);
    }
    PrunedParts(s1, if s.elems[id].useCount > 0 then s1 else Erase(c, s1, id));
  }

  lemma LockedPending(c: Config, s: State, id: Id)
    requires Locks(c, s) && id in s.elems && !Dead(c, s, s.elems[id])
    ensures s.elems[id].slot.Pending? <==> s.elems[id].useCount > 0
  {
  }

  lemma PrunedParts(s: State, r: State)
    requires Pruned(s, r)
    ensures r.elems.Keys <= s.elems.Keys && (forall id :: id in r.elems ==> r.elems[id] == s.elems[id])
    ensures r.queue.All() == Those(s.queue.All(), r.elems.Keys)
  {
  }

  /** On its way `expire` erases what is dead and unlocked, like `get`. */
  lemma ForgetClears(c: Config, s: State, k: Key, j: nat)
    requires Inv(c, s) && j < |s.buckets[BucketOf(c, s, k)]|
    requires Doomed(c, s, s.buckets[BucketOf(c, s, k)][j])
    ensures var b := BucketOf(c, s, k);
      s.buckets[b][j] !in Forget(c, s, k).s.elems || HitBefore(s, b, 0, j, Sought(c, s, k, false))
  {
    hide Wf, Tends, Known, Locks, Unique, Scan, Dead, DeadBefore, HitBefore;
    DeadBeforeNone(c, s, BucketOf(c, s, k), k);
    var f := Scan(c, s, BucketOf(c, s, k), 0, k, false);
    SearchClears(c, s, k, false, j);
    LocksTends(c, s, f.s);
    if f.Hit? {
      FoundLive(c, s, k, f);
      StrikeLeaves(c, f.s, f.id);
    }
  }
}
