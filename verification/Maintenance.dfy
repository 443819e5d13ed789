/** The maintenance that runs inside lookups: the cleanup, eviction and expiry loops over the queue. */
module Maintenance {
  import opened Sequences
  import opened QueueModel
  import opened ElementState
  import opened CacheState

  datatype Erased = Erased(s: State, done: bool)

  /** Removes an element that is expired and not locked against deletion. */
  function EraseIfExpired(c: Config, s: State, id: Id): (r: Erased)
    requires Wf(c, s) && id in s.elems
    ensures Wf(c, r.s) && Tends(c, s, r.s) && SameAccess(s, r.s)
    ensures r.done <==> id !in r.s.elems
    ensures !r.done ==> s.elems[id].useCount != 0 || !Dead(c, r.s, s.elems[id])
    ensures r.s.elems == if r.done then s.elems - {id} else s.elems
    ensures r.s.queue == if r.done then s.queue.Delete(id) else s.queue
    ensures |r.s.buckets| == |s.buckets|
  {
    if s.elems[id].useCount != 0 then Erased(s, false) else
    var s1 := Observe(c, s);
    ExpiredIsDead(c, s1, id);
    if IsExpired(c, s1, s1.elems[id]) then
      var s2 := Erase(c, s1, id);
      TendsTrans(c, s, s1, s2);
      Erased(s2, true)
    else
      Erased(s1, false)
  }

  ghost predicate SameAccess(s: State, s': State) {
    forall id :: id in s.elems && id in s'.elems ==> s'.elems[id].access == s.elems[id].access
  }

  /** After a hit or a creation: erases expired elements from the cold end, up to the first one that stays. */
  function Cleanup(c: Config, s: State): (r: State)
    requires Wf(c, s)
    ensures Wf(c, r) && Tends(c, s, r) && SameAccess(s, r)
    ensures r.queue.All() <= s.queue.All()
    ensures s.queue.Balanced() ==> r.queue.Balanced()
    ensures |r.buckets| == |s.buckets|
    decreases |s.queue.All()|
  {
    if s.queue.All() == [] then s else
    var id := s.queue.Coldest();
    var e := EraseIfExpired(c, s, id);
    if !e.done then e.s else
    RemoveAt(s.queue.All(), |s.queue.All()| - 1);
    var r := Cleanup(c, e.s);
    TendsTrans(c, s, e.s, r);
    r
  }

  /** Where the cleanup stops: the coldest element that is left is alive or locked. */
  lemma {:induction false} CleanupStops(c: Config, s: State)
    requires Wf(c, s)
    ensures var r := Cleanup(c, s);
      r.queue.All() != [] ==>
        var id := r.queue.Coldest();
        id in r.elems && (r.elems[id].useCount != 0 || !Dead(c, r, r.elems[id]))
    decreases |s.queue.All()|
  {
    hide Wf, Tends, SameAccess, Dead;
    LinkedExists(c, s);
    if s.queue.All() != [] {
      var id := s.queue.Coldest();
      var e := EraseIfExpired(c, s, id);
      if e.done {
        RemoveAt(s.queue.All(), |s.queue.All()| - 1) by { LinkedNoDup(c, s); }
        CleanupStops(c, e.s);
      }
    }
  }

  lemma LinkedNoDup(c: Config, s: State)
    ensures Wf(c, s) ==> NoDup(s.queue.All())
  {
  }

  /** One round of an eviction loop: the coldest element is weakened, unlinked and, if that expired it, erased. */
  function EvictOne(c: Config, s: State): (r: State)
    requires Wf(c, s) && s.queue.All() != []
    ensures Wf(c, r) && Tends(c, s, r) && SameAccess(s, r)
    ensures r.queue == s.queue.DropColdest() && r.elems.Keys <= s.elems.Keys
    ensures var id := s.queue.Coldest(); id in r.elems ==> s.elems[id].useCount != 0 || !Dead(c, r, s.elems[id])
    ensures |r.buckets| == |s.buckets|
  {
    var id := s.queue.Coldest();
    var s1 := PopColdest(c, s);
    var e := EraseIfExpired(c, s1, id);
    TendsTrans(c, s, s1, e.s);
    assert id !in s1.queue.All();
    assert s1.queue.Delete(id) == s1.queue;
    e.s
  }

  lemma EvictTrans(c: Config, s: State, s': State, s'': State)
    ensures Tends(c, s, s') && SameAccess(s, s') && Tends(c, s', s'') && SameAccess(s', s'')
        ==> Tends(c, s, s'') && SameAccess(s, s'')
  {
    TendsTrans(c, s, s', s'');
  }

  /** Evicts from the cold end until at most `n` elements are linked. */
  function EvictTo(c: Config, s: State, n: nat): (r: State)
    requires Wf(c, s)
    ensures Wf(c, r) && Tends(c, s, r) && SameAccess(s, r)
    ensures r.queue.All() == Kept(s.queue.All(), n)
    ensures |r.buckets| == |s.buckets|
    decreases |s.queue.All()|
  {
    KeptAll(s.queue.All(), n);
    hide Wf, EvictOne, SameAccess, Tends, Kept;
    if |s.queue.All()| <= n then EvictRefl(c, s); s else
    KeptStep(s.queue.All(), n);
    var s1 := EvictOne(c, s);
    var r := EvictTo(c, s1, n);
    EvictTrans(c, s, s1, r);
    r
  }

  lemma EvictRefl(c: Config, s: State)
    ensures Tends(c, s, s) && SameAccess(s, s)
  {
  }

  function ShrinkToSize(c: Config, s: State, n: nat): (r: State)
    requires Wf(c, s)
    ensures Wf(c, r) && Tends(c, s, r) && SameAccess(s, r)
    ensures r.queue.All() == Kept(s.queue.All(), n)
    ensures r.queue.Balanced()
    ensures |r.buckets| == |s.buckets|
  {
    var s1 := EvictTo(c, s, n);
    var r := Rebalance(c, s1);
    TendsTrans(c, s, s1, r);
    r
  }

  /** `q` keeps the elements of the queue down to the last one whose access deadline has not passed. */
  ghost predicate StaleCut(s: State, q: seq<Id>, now: int) {
    && q <= s.queue.All()
    && (forall i :: |q| <= i < |s.queue.All()| ==>
          s.queue.All()[i] in s.elems && s.elems[s.queue.All()[i]].access < now)
    && (q != [] ==> q[|q| - 1] in s.elems && s.elems[q[|q| - 1]].access >= now)
  }

  lemma StaleStep(s: State, s': State, q: seq<Id>, now: int)
    requires s.queue.All() != [] && s.queue.Coldest() in s.elems
    requires s.elems[s.queue.Coldest()].access < now
    requires s'.queue == s.queue.DropColdest() && SameAccess(s, s') && s'.elems.Keys <= s.elems.Keys
    ensures StaleCut(s', q, now) ==> StaleCut(s, q, now)
  {
  }

  /** Evicts from the cold end as long as the coldest element's access deadline lies before `now`. */
  function EvictStale(c: Config, s: State, now: int): (r: State)
    requires Wf(c, s)
    ensures Wf(c, r) && Tends(c, s, r) && SameAccess(s, r)
    ensures StaleCut(s, r.queue.All(), now)
    ensures |r.buckets| == |s.buckets|
    decreases |s.queue.All()|
  {
    hide Wf, SameAccess, Tends, EvictOne;
    LinkedExists(c, s);
    if s.queue.All() == [] || s.elems[s.queue.Coldest()].access >= now then EvictRefl(c, s); s else
    var s1 := EvictOne(c, s);
    var r := EvictStale(c, s1, now);
    hide StaleCut;
    StaleStep(s, s1, r.queue.All(), now);
    EvictTrans(c, s, s1, r);
    r
  }

  function ShrinkStale(c: Config, s: State, now: int): (r: State)
    requires Wf(c, s)
    ensures Wf(c, r) && Tends(c, s, r) && SameAccess(s, r)
    ensures StaleCut(s, r.queue.All(), now)
    ensures r.queue.Balanced()
    ensures |r.buckets| == |s.buckets|
  {
    hide Wf, Tends, StaleCut;
    var s1 := EvictStale(c, s, now);
    var r := Rebalance(c, s1);
    TendsTrans(c, s, s1, r);
    r
  }

  // ----- the decorators' callbacks on a hit and on a creation

  /** The queue's reaction to a hit: a linked element moves to the front, an unlinked one is strengthened and linked. */
  function HitQueue(c: Config, s: State, id: Id): (r: State)
    requires Wf(c, s) && id in s.elems
    ensures Wf(c, r) && Tends(c, s, r)
    ensures r.elems.Keys == s.elems.Keys
    ensures s.queue.Balanced() ==> r.queue.Balanced()
    ensures |r.buckets| == |s.buckets|
  {
    if id in s.queue.All() then
      var r := s.(queue := s.queue.Hit(id));
      HitLinked(c, s, id);
      r
    else
      var s1 := Observe(c, s);
      var x := s1.elems[id].slot;
      var y := Strengthened(x, x.Weak? && Alive(s1, x.v));
      if y.Weak? then s1 else
      var r := WithSlot(s1, id, y).(queue := s1.queue.Create(id));
      HitUnlinked(c, s1, id, y);
      TendsTrans(c, s, s1, r);
      r
  }

  lemma HitLinked(c: Config, s: State, id: Id)
    requires id in s.queue.All()
    ensures Wf(c, s) ==> Wf(c, s.(queue := s.queue.Hit(id)))
    ensures Tends(c, s, s.(queue := s.queue.Hit(id)))
  {
    var r := s.(queue := s.queue.Hit(id));
    TendsFrame(c, s, r);
    ChainedFrame(c, s, r);
    hide Chained, Accounted;
    if NoDup(s.queue.All()) {
      RemoveNoDup(s.queue.All(), id);
    }
  }

  lemma CreateLinks<T>(q: Queue<T>, x: T)
    requires NoDup(q.All()) && x !in q.All()
    ensures NoDup(q.Create(x).All())
    ensures forall y :: y in q.Create(x).All() <==> y == x || y in q.All()
  {
    var l, r := q.All()[..|q.hot|], q.All()[|q.hot|..];
    assert q.All() == l + r;
    NoDupConcat(l, r);
    assert NoDup([x]);
    NoDupConcat(l, [x]);
    NoDupConcat(l + [x], r);
  }

  lemma HitUnlinked(c: Config, s: State, id: Id, x: Slot)
    requires Wf(c, s) && id in s.elems && id !in s.queue.All()
    requires Core(x) == Core(s.elems[id].slot) && Marked(x) == Marked(s.elems[id].slot)
    requires !x.Weak? && (x.Pending? ==> x.strong)
    requires x.Strong? && x.v != Null ==> Alive(s, x.v)
    ensures var r := WithSlot(s, id, x).(queue := s.queue.Create(id)); Wf(c, r) && Tends(c, s, r)
  {
    hide Chained, Accounted, Tends;
    var s1 := WithSlot(s, id, x);
    var r := s1.(queue := s.queue.Create(id));
    RestrengthTends(c, s, id, x);
    TendsFrame(c, s1, r);
    TendsTrans(c, s, s1, r);
    ChainedFrame(c, s, r);
    CreateLinks(s.queue, id);
  }

  /** Sets the access deadline of an element. */
  function Touch(s: State, id: Id, deadline: int): State
    requires id in s.elems
  {
    s.(elems := s.elems[id := s.elems[id].(access := deadline)])
  }

  lemma TouchTends(c: Config, s: State, id: Id, deadline: int)
    requires id in s.elems
    ensures Tends(c, s, Touch(s, id, deadline))
    ensures Wf(c, s) ==> Wf(c, Touch(s, id, deadline))
  {
    var r := Touch(s, id, deadline);
    forall v | Alive(r, v) ensures Alive(s, v) {}
    ChainedFrame(c, s, r);
    hide Chained, Accounted;
  }

  /** The queue may have lost elements but has not gained any, and its balance is not lost. */
  ghost predicate Trims(s: State, r: State) {
    && (s.queue.Balanced() ==> r.queue.Balanced())
    && |r.queue.All()| <= |s.queue.All()|
  }

  function QueueOnHit(c: Config, s: State, id: Id): (r: State)
    requires Wf(c, s) && id in s.elems
    ensures Wf(c, r) && Tends(c, s, r)
    ensures s.queue.Balanced() ==> r.queue.Balanced()
    ensures !c.queued ==> r == s
    ensures |r.buckets| == |s.buckets|
  {
    hide Wf, Tends;
    if !c.queued then TendsRefl(c, s); s else
    var s1 := HitQueue(c, s, id);
    var r := Cleanup(c, s1);
    TendsTrans(c, s, s1, r);
    r
  }

  /** The access-expire decorator first renews the element that was hit, then drops what is stale. */
  function AccessOnHit(c: Config, s: State, id: Id): (r: State)
    requires Wf(c, s) && id in s.elems
    ensures Wf(c, r) && Tends(c, s, r) && Trims(s, r)
    ensures id in s.queue.All() ==> id in r.queue.All()
    ensures r.queue.All() <= s.queue.All()
    ensures |r.buckets| == |s.buckets|
  {
    hide Wf, Tends, StaleCut, ShrinkStale, Observe, SameAccess;
    if c.accessExpire.None? then TendsRefl(c, s); s else
    var s1 := Observe(c, s);
    var s2 := Touch(s1, id, s1.now + c.accessExpire.value);
    TouchTends(c, s1, id, s1.now + c.accessExpire.value);
    var r := ShrinkStale(c, s2, s1.now);
    TendsTrans(c, s, s1, s2);
    TendsTrans(c, s, s2, r);
    StaleCutLength(s2, r.queue.All(), s1.now);
    RenewedStays(s2, r.queue.All(), s1.now, id);
    r
  }

  lemma StaleCutLength(s: State, q: seq<Id>, now: int)
    ensures StaleCut(s, q, now) ==> q <= s.queue.All()
  {
  }

  /** An element that has just been renewed is not cut. */
  lemma RenewedStays(s: State, q: seq<Id>, now: int, id: Id)
    requires id in s.elems && s.elems[id].access >= now
    ensures StaleCut(s, q, now) && id in s.queue.All() ==> id in q
  {
    if StaleCut(s, q, now) && id in s.queue.All() {
      var i :| 0 <= i < |s.queue.All()| && s.queue.All()[i] == id;
      assert i < |q| && q[i] == id;
    }
  }

  /** A hit renews the access deadline: it is then one full duration after the moment at which the callback read the
      clock. */
  lemma AccessRenewed(c: Config, s: State, id: Id)
    requires Wf(c, s) && id in s.elems && c.accessExpire.Some?
    ensures var r := AccessOnHit(c, s, id);
      id in r.elems ==> r.elems[id].access == Observe(c, s).now + c.accessExpire.value
  {
    hide Wf, StaleCut, ShrinkStale, Observe, Alive, Dead;
    var s1 := Observe(c, s);
    TouchTends(c, s1, id, s1.now + c.accessExpire.value);
  }

  function AccessOnCreate(c: Config, s: State): (r: State)
    requires Wf(c, s)
    ensures Wf(c, r) && Tends(c, s, r) && Trims(s, r)
    ensures r.queue.All() <= s.queue.All()
    ensures |r.buckets| == |s.buckets|
  {
    hide Wf, Tends, StaleCut, ShrinkStale, Observe, SameAccess;
    if c.accessExpire.None? then TendsRefl(c, s); s else
    var s1 := Observe(c, s);
    var r := ShrinkStale(c, s1, s1.now);
    TendsTrans(c, s, s1, r);
    StaleCutLength(s1, r.queue.All(), s1.now);
    r
  }

  function ApplyMaxSize(c: Config, s: State): (r: State)
    requires Wf(c, s)
    ensures Wf(c, r) && Tends(c, s, r) && Trims(s, r)
    ensures r.queue.All() <= s.queue.All()
    ensures Bounded(c, r)
    ensures |r.buckets| == |s.buckets|
  {
    hide Wf, Tends;
    if c.maxSize.None? then TendsRefl(c, s); s else
    ShrinkToSize(c, s, c.maxSize.value)
  }

  ghost predicate Bounded(c: Config, s: State) {
    c.maxSize.Some? ==> |s.queue.All()| <= c.maxSize.value
  }

  /** Everything the decorators do when element `id` is hit. The element must be locked against deletion. */
  function OnHit(c: Config, s: State, id: Id): (r: State)
    requires Wf(c, s) && id in s.elems && s.elems[id].useCount > 0
    ensures Wf(c, r) && Tends(c, s, r) && Bounded(c, r)
    ensures id in r.elems
    ensures s.queue.Balanced() ==> r.queue.Balanced()
    ensures |r.buckets| == |s.buckets|
  {
    hide Wf;
    var s1 := QueueOnHit(c, s, id);
    var s2 := AccessOnHit(c, s1, id);
    var r := ApplyMaxSize(c, s2);
    TendsTrans(c, s, s1, s2);
    TendsTrans(c, s, s2, r);
    r
  }

  // ----- where a hit leaves the element

  /** The pointee of the element, if it has one, is pinned: the section that serves the element holds a pointer to it.
      */
  ghost predicate Secured(s: State, id: Id) {
    && id in s.elems && s.elems[id].useCount > 0 && Core(s.elems[id].slot) != Nothing
    && (Core(s.elems[id].slot).Value? ==> Core(s.elems[id].slot).v != Null && Core(s.elems[id].slot).v in s.pinned)
  }

  lemma SecuredLinks(c: Config, s: State, id: Id)
    requires Wf(c, s) && Secured(s, id)
    ensures var r := HitQueue(c, s, id);
      && r.queue == (if id in s.queue.All() then s.queue.Hit(id) else s.queue.Create(id))
      && !IsWeak(r.elems[id].slot)
  {
    hide Chained, Accounted, Linked;
    if id !in s.queue.All() {
      var s1 := Observe(c, s);
      assert s1.pinned == s.pinned;
    }
  }

  /** After a hit the element is at the very front if it was linked, and between the halves if it was not, where it then
      owns its value again. Everything else keeps its order; only the cold end may be cut off. */
  lemma HitReorders(c: Config, s: State, id: Id)
    requires Wf(c, s) && Secured(s, id) && c.queued
    ensures OnHit(c, s, id).queue.All() <=
      if id in s.queue.All() then [id] + Remove(s.queue.All(), id) else s.queue.Create(id).All()
  {
    hide Wf, Tends, HitQueue, Cleanup, AccessOnHit, ApplyMaxSize;
    SecuredLinks(c, s, id);
    var s1 := QueueOnHit(c, s, id);
    assert s1.queue.All() <= HitQueue(c, s, id).queue.All();
    SecuredStays(c, s, s1, id);
    var s2 := AccessOnHit(c, s1, id);
    assert s2.queue.All() <= s1.queue.All();
    assert OnHit(c, s, id).queue.All() <= s2.queue.All();
  }

  lemma SecuredStays(c: Config, s: State, s': State, id: Id)
    requires Secured(s, id)
    ensures id in s.elems && s.elems[id].useCount > 0
    ensures Tends(c, s, s') ==> id in s'.elems
  {
  }
}
