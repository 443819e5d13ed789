/** Every critical section keeps the invariant and is a step of the `Later` relation. */
module Sections {
  import opened ElementState
  import opened CacheState
  import opened Maintenance
  import opened Lookup
  import opened Resize
  import opened Evolution
  import opened Operations

  // ----- maintenance and waiting threads

  lemma MaintainedInv(c: Config, s: State, s': State)
    requires Inv(c, s) && Tends(c, s, s') && Wf(c, s')
    requires s'.queue.Balanced() && Bounded(c, s')
    ensures Inv(c, s') && Later(c, s, s', {})
  {
    hide Wf, Tends, Known, Locks, Unique, Later;
    KnownTends(c, s, s');
    LocksTends(c, s, s');
    TendsLater(c, s, s', {});
    SameNext(c, s, s');
    MaintainedUnique(c, s, s');
  }

  lemma MaintainedUnique(c: Config, s: State, s': State)
    requires Known(s)
    ensures Tends(c, s, s') && Unique(c, s) ==> Unique(c, s')
  {
    if Tends(c, s, s') && Unique(c, s) {
      TendsLater(c, s, s', {});
      UniqueLater(c, s, s', {});
    }
  }

  ghost predicate SameCell(e: Elem, e': Elem) {
    e'.key == e.key && e'.maxAge == e.maxAge && e'.slot == e.slot
  }

  lemma SlotsAlive(s: State, r: State, v: Ptr)
    requires r.elems.Keys == s.elems.Keys && forall id :: id in s.elems ==> r.elems[id].slot == s.elems[id].slot
    requires r.futs == s.futs && r.waiters == s.waiters && s.held + s.pinned <= r.held + r.pinned
    ensures Alive(s, v) ==> Alive(r, v)
  {
    if Alive(s, v) {
      if v in s.held + s.pinned {
        assert v in r.held + r.pinned;
      } else if id :| id in s.elems && Holds(s.futs, s.elems[id].slot, v) {
        assert Holds(r.futs, r.elems[id].slot, v);
      }
    }
  }

  /** `r` differs from `s` in waiting threads, holders, locks and the like, but keeps the same values alive. */
  ghost predicate SameLife(s: State, r: State) {
    && r.elems.Keys == s.elems.Keys && |r.buckets| == |s.buckets|
    && r.futs == s.futs && r.born == s.born && r.nextId == s.nextId && r.now == s.now
    && (forall id :: id in s.elems ==> SameCell(s.elems[id], r.elems[id]))
    && (forall v :: Alive(r, v) <==> Alive(s, v))
  }

  lemma UniqueSame(c: Config, s: State, r: State)
    ensures SameLife(s, r) && Unique(c, s) ==> Unique(c, r)
  {
  }

  lemma KnownSame(s: State, r: State)
    requires forall t :: t in r.waiters ==> r.waiters[t].fut in r.futs
    ensures SameLife(s, r) && Known(s) ==> Known(r)
  {
    if SameLife(s, r) && Known(s) {
      forall id | id in r.elems ensures KnownContent(r, Core(r.elems[id].slot)) {
        assert KnownContent(s, Core(s.elems[id].slot));
      }
    }
  }

  lemma LaterSame(c: Config, s: State, s': State, r: State, gone: set<Key>)
    ensures SameLife(s', r) && Later(c, s, s', gone) ==> Later(c, s, r, gone)
  {
  }

  /** A thread that waits for the future of a pending element keeps nothing alive that was not alive already. */
  lemma WaitSameLife(s: State, t: Tid, w: Wait, id: Id)
    requires t !in s.waiters && id in s.elems && Core(s.elems[id].slot) == Future(w.fut)
    ensures SameLife(s, s.(waiters := s.waiters[t := w]))
  {
    var r := s.(waiters := s.waiters[t := w]);
    forall v ensures Alive(r, v) <==> Alive(s, v) {
      if Alive(r, v) {
        if Completed(s.futs, w.fut, v) {
          assert Holds(s.futs, s.elems[id].slot, v);
        } else if u :| u in r.waiters && Completed(r.futs, r.waiters[u].fut, v) {
          assert u in s.waiters && s.waiters[u] == r.waiters[u];
        }
      }
      if Alive(s, v) {
        if u :| u in s.waiters && Completed(s.futs, s.waiters[u].fut, v) {
          assert u in r.waiters && s.waiters[u] == r.waiters[u];
        }
      }
    }
  }

  /** Joining a pending element changes nothing for anybody else. */
  lemma JoinInv(c: Config, s: State, t: Tid, f: Fut, id: Id)
    requires Inv(c, s) && t !in s.waiters
    requires id in s.elems && Core(s.elems[id].slot) == Future(f)
    ensures Inv(c, s.(waiters := s.waiters[t := Join(f)]))
    ensures Later(c, s, s.(waiters := s.waiters[t := Join(f)]), {})
  {
    var r := s.(waiters := s.waiters[t := Join(f)]);
    assert f in s.futs by { assert KnownContent(s, Core(s.elems[id].slot)); }
    WaitSameLife(s, t, Join(f), id);
    hide Wf, Locks, Unique, SameLife, Later;
    KnownSame(s, r);
    JoinLocks(c, s, t, f);
    UniqueSame(c, s, r);
    LaterRefl(c, s, {});
    LaterSame(c, s, s, r, {});
    WfFrame(c, s, r);
  }

  lemma JoinLocks(c: Config, s: State, t: Tid, f: Fut)
    requires t !in s.waiters
    ensures Locks(c, s) ==> Locks(c, s.(waiters := s.waiters[t := Join(f)]))
  {
    var r := s.(waiters := s.waiters[t := Join(f)]);
    forall u, id ensures Creates(r, u, id) <==> Creates(s, u, id) {}
  }

  // ----- get

  lemma GetHit(c: Config, s: State, t: Tid, k: Key, made: Made)
    requires Valid(c) && Inv(c, s) && t !in s.waiters
    requires Find(c, s, k).Hit?
    ensures var r := Get(c, s, t, k, made).s;
      Inv(c, r) && Later(c, s, r, {}) && Later(c, Find(c, s, k).s, r, {}) && r.nextId == s.nextId
  {
    hide Wf, Tends, Known, Locks, Unique, Later, Find, Serve;
    var Hit(s1, id, got) := Find(c, s, k);
    var s2 := Serve(c, s1, id);
    ServeTends(c, s1, id);
    TendsTrans(c, s, s1, s2);
    MaintainedInv(c, s, s2);
    KnownTends(c, s, s1);
    TendsLater(c, s1, s2, {});
    ServedUnchanged(c, s1, s2, id);
    SameNext(c, s, s2);
    if got.Future? {
      JoinInv(c, s2, t, got.f, id);
      LaterTrans(c, s, s2, s2.(waiters := s2.waiters[t := Join(got.f)]), {});
      LaterTrans(c, s1, s2, s2.(waiters := s2.waiters[t := Join(got.f)]), {});
    }
  }

  lemma ServedUnchanged(c: Config, s: State, s': State, id: Id)
    requires id in s.elems && id in s'.elems
    ensures Tends(c, s, s') ==> SameElem(s.elems[id], s'.elems[id])
  {
  }

  /** The invariant with one more lock: element `id` has just been created and its creator still runs. */
  ghost predicate Opened(c: Config, s: State, r: State, id: Id, k: Key, x: Content) {
    && Wf(c, r) && Known(r) && r.queue.Balanced() && Bounded(c, r) && r.lf > 0.0
    && Later(c, s, r, {}) && id == s.nextId && r.nextId == id + 1
    && Joins(s, r, id, k, x)
  }

  lemma CreateOpens(c: Config, s: State, k: Key, made: Made, at: int)
    requires Inv(c, s) && !made.Throws? && Admissible(c, s, made)
    ensures Opened(c, s, Create(c, s, k, made, at), s.nextId, k, Core(FirstSlot(made)))
  {
    hide Wf, Tends, Known, Locks, Unique, Later, Joins, Create;
    CreateJoins(c, s, k, made, at);
    CreateLater(c, s, k, made, at);
    CreateFields(c, s, k, made, at);
  }

  lemma CreateFields(c: Config, s: State, k: Key, made: Made, at: int)
    requires Wf(c, s) && !made.Throws?
    ensures var r := Create(c, s, k, made, at);
      var s1 := Invent(s, made, Late(c, s, at));
      r.lf == s.lf && r.futs == s1.futs && r.pinned == s1.pinned && r.born == s1.born && r.waiters == s.waiters
  {
    hide Wf, Tends, AfterInsert;
    var s1 := Invent(s, made, Late(c, s, at));
    WfFrame(c, s, s1);
    var s2 := Insert(c, s1, k, FirstSlot(made), at);
    SameNext(c, s2, AfterInsert(c, s2));
  }

  /** A creation when all elements of the key are dead leaves at most one live element per key. */
  lemma OpenedUnique(c: Config, s: State, r: State, id: Id, k: Key, x: Content)
    requires Known(s) && Unique(c, s) && AllDead(c, s, k)
    requires Opened(c, s, r, id, k, x)
    ensures Unique(c, r)
  {
    hide Wf;
    forall i | i in r.elems && i != id && r.elems[i].key == k ensures Dead(c, r, r.elems[i]) {
      assert KnownContent(s, Core(s.elems[i].slot));
      DeadRemains(c, s, r, {}, s.elems[i], r.elems[i]);
    }
    UniqueLater(c, s, r, {});
  }

  lemma PromiseLocks(c: Config, s: State, r: State, t: Tid, id: Id, k: Key, f: Fut)
    requires Locks(c, s) && Joins(s, r, id, k, Future(f)) && t !in s.waiters && s.now <= r.now
    ensures Locks(c, FinishPromise(r, t, id, f))
  {
    var r' := FinishPromise(r, t, id, f);
    assert Creates(r', t, id);
    forall u, i | Creates(r', u, i) ensures (u == t && i == id) || Creates(s, u, i) {}
    forall u, i | Creates(s, u, i) ensures Creates(r', u, i) {}
  }

  lemma PromiseSame(c: Config, s: State, r: State, t: Tid, id: Id, k: Key, f: Fut)
    requires t !in s.waiters && Opened(c, s, r, id, k, Future(f))
    ensures SameLife(r, FinishPromise(r, t, id, f)) && f in r.futs
    ensures forall u :: u in r.waiters ==> r.waiters[u].fut in r.futs
  {
    hide Wf, Later;
    WaitSameLife(r, t, Creator(f, id), id);
    assert KnownContent(r, Core(r.elems[id].slot));
  }

  lemma PromiseInv(c: Config, s: State, r: State, t: Tid, id: Id, k: Key, f: Fut)
    requires Inv(c, s) && AllDead(c, s, k) && t !in s.waiters
    requires Opened(c, s, r, id, k, Future(f)) && r.pinned == {}
    ensures var r' := FinishPromise(r, t, id, f); Inv(c, r') && Later(c, s, r', {}) && r'.nextId == id + 1
  {
    hide Wf, Known, Locks, Unique, SameLife, Later, Joins, AllDead;
    var r' := FinishPromise(r, t, id, f);
    OpenedUnique(c, s, r, id, k, Future(f));
    PromiseSame(c, s, r, t, id, k, f);
    KnownSame(r, r');
    LaterNow(c, s, r, {});
    PromiseLocks(c, s, r, t, id, k, f);
    UniqueSame(c, r, r');
    LaterSame(c, s, r, r', {});
    WfFrame(c, r, r');
  }

  // ----- the end of a synchronous creation

  lemma OpenedTends(c: Config, s: State, r: State, r': State, id: Id, k: Key, x: Content)
    requires Known(s) && Opened(c, s, r, id, k, x)
    requires Wf(c, r') && Tends(c, r, r') && Trims(r, r')
    ensures Opened(c, s, r', id, k, x)
  {
    hide Wf, Tends, Known, Later, Joins;
    KnownTends(c, r, r');
    TendsLater(c, r, r', {});
    LaterTrans(c, s, r, r', {});
    JoinsTends(c, s, r, r', id, k, x);
    SameNext(c, r, r');
  }

  /** The creator lets go of an element that holds a value, or that nobody will ever resolve. */
  lemma ReleaseLocks(c: Config, s: State, r: State, id: Id, k: Key, x: Content, r': State)
    requires Locks(c, s) && Joins(s, r, id, k, x) && s.now <= r.now
    requires x.Future? ==> MaxAged(c, r, r.elems[id])
    requires r'.elems == WithLock(r, id, -1).elems && r'.waiters == r.waiters && r'.now == r.now
    ensures Locks(c, r')
  {
    forall t, i ensures Creates(r', t, i) <==> Creates(s, t, i) {}
    forall i | i in r'.elems && i != id && r'.elems[i].useCount > 0
      ensures r'.elems[i].useCount == 1 && exists t :: Creates(r', t, i)
    {
      var t :| Creates(s, t, i);
      assert Creates(r', t, i);
    }
    forall t, i | Creates(r', t, i)
      ensures i in r'.elems && r'.elems[i].useCount == 1
      ensures r'.elems[i].slot.Pending? && r'.elems[i].slot.fut == r'.waiters[t].fut
    {
      assert Creates(s, t, i);
      assert SameElem(s.elems[i], r.elems[i]);
    }
    forall i | i in r'.elems && i != id && r'.elems[i].slot.Pending? && r'.elems[i].useCount == 0
      ensures MaxAged(c, r', r'.elems[i])
    {
      assert SameElem(s.elems[i], r.elems[i]);
    }
  }

  lemma ReleaseSameLife(r: State, id: Id, given: set<Ptr>)
    requires id in r.elems && r.elems[id].useCount > 0 && r.pinned == given
    ensures SameLife(r, WithLock(r, id, -1).(pinned := {}, held := r.held + given))
  {
    var r' := WithLock(r, id, -1).(pinned := {}, held := r.held + given);
    forall u ensures Alive(r', u) <==> Alive(r, u) {
      SlotsAlive(r, r', u);
      SlotsAlive(r', r, u);
    }
  }

  lemma NowInv(c: Config, s: State, k: Key, r: State, id: Id, x: Content, given: set<Ptr>)
    requires Valid(c) && Inv(c, s) && AllDead(c, s, k)
    requires Opened(c, s, r, id, k, x) && r.pinned == given
    requires x.Future? ==> MaxAged(c, r, r.elems[id])
    ensures var r' := FinishNow(c, r, id, given); Inv(c, r') && Later(c, s, r', {}) && r'.nextId == id + 1
  {
    var r1 := MaybeRehash(c, r);
    hide Wf, Locks, Unique, SameLife, Later, MaybeRehash, Known;
    OpenedTends(c, s, r, r1, id, k, x);
    SameNext(c, r, r1);
    AgedStays(c, r, r1, id);
    LaterNow(c, s, r1, {});
    var r' := FinishNow(c, r, id, given);
    OpenedUnique(c, s, r1, id, k, x);
    ReleaseLocks(c, s, r1, id, k, x, r');
    ReleaseSameLife(r1, id, given);
    UniqueSame(c, r1, r');
    LaterSame(c, s, r1, r', {});
    LockWf(c, r1, id, -1, r');
    ReleaseKnown(c, r1, r');
  }

  lemma AgedStays(c: Config, s: State, s': State, id: Id)
    requires id in s.elems && id in s'.elems
    ensures Tends(c, s, s') && MaxAged(c, s, s.elems[id]) ==> MaxAged(c, s', s'.elems[id])
  {
  }

  lemma LaterNow(c: Config, s: State, s': State, gone: set<Key>)
    ensures Later(c, s, s', gone) ==> s.now <= s'.now
  {
  }

  lemma ReleaseKnown(c: Config, r: State, r': State)
    requires r'.waiters == r.waiters
    ensures SameLife(r, r') && Known(r) ==> Known(r')
  {
    if SameLife(r, r') && Known(r) {
      KnownSame(r, r');
    }
  }

  lemma GetMiss(c: Config, s: State, t: Tid, k: Key, made: Made)
    requires Valid(c) && Inv(c, s) && t !in s.waiters
    requires Find(c, s, k).Miss?
    ensures var r := Get(c, s, t, k, made); Inv(c, r.s) && Later(c, s, r.s, {}) && Later(c, Find(c, s, k).s, r.s, {})
    ensures var r := Get(c, s, t, k, made);
      r.s.nextId == if Asked(c, s, k, made).Throws? then s.nextId else s.nextId + 1
  {
    hide Wf, Tends, Known, Locks, Unique, Later, Find, Create, FinishNow, Effective, Opened, MaxAged;
    var s1 := Find(c, s, k).s;
    var s2 := AskedAt(c, s, k);
    var s3 := MadeAt(c, s, k);
    TendsTrans(c, s1, s2, s3);
    TendsTrans(c, s, s1, s3);
    MaintainedInv(c, s, s3);
    SameNext(c, s, s3);
    StillDead(c, s1, s3, k);
    KnownTends(c, s, s1);
    TendsLater(c, s1, s3, {});
    var m := Asked(c, s, k, made);
    if !m.Throws? {
      var s4 := Create(c, s3, k, m, s2.now);
      CreateOpens(c, s3, k, m, s2.now);
      CreateFields(c, s3, k, m, s2.now);
      CreateLate(c, s3, k, m, s2.now);
      var id := s3.nextId;
      var r := Get(c, s, t, k, made).s;
      if Slow(c, s, k) {
        assert s4.pinned == {};
        NowInv(c, s3, k, s4, id, Core(FirstSlot(m)), {});
      } else if m.Ready? {
        assert s4.pinned == {m.v};
        NowInv(c, s3, k, s4, id, Value(m.v), {m.v});
      } else {
        assert s4.pinned == {};
        PromiseInv(c, s3, s4, t, id, k, m.f);
      }
      LaterTrans(c, s, s3, r, {});
      LaterTrans(c, s1, s3, r, {});
    }
  }

  lemma CreateLate(c: Config, s: State, k: Key, made: Made, at: int)
    requires Wf(c, s) && !made.Throws?
    ensures var r := Create(c, s, k, made, at); Late(c, s, at) ==> MaxAged(c, r, r.elems[s.nextId])
  {
    hide Wf, AfterInsert, Insert, Inserted, Tends;
    CreateDeadline(c, s, k, made, at);
    WfFrame(c, s, Invent(s, made, Late(c, s, at)));
    InsertFields(c, Invent(s, made, Late(c, s, at)), k, FirstSlot(made), at);
    var s2 := Insert(c, Invent(s, made, Late(c, s, at)), k, FirstSlot(made), at);
    TendsNow(c, s2, AfterInsert(c, s2));
  }

  lemma TendsNow(c: Config, s: State, s': State)
    ensures Tends(c, s, s') ==> s.now <= s'.now
  {
  }

  lemma StillDead(c: Config, s: State, s': State, k: Key)
    ensures Tends(c, s, s') && AllDead(c, s, k) ==> AllDead(c, s', k)
  {
    if Tends(c, s, s') && AllDead(c, s, k) {
      forall id | id in s'.elems && s'.elems[id].key == k ensures Dead(c, s', s'.elems[id]) {
        DeadStays(c, s, s', s.elems[id], s'.elems[id]);
      }
    }
  }

  lemma GetKeeps(c: Config, s: State, t: Tid, k: Key, made: Made)
    requires Valid(c) && Inv(c, s) && t !in s.waiters
    ensures var r := Get(c, s, t, k, made); Inv(c, r.s) && Later(c, s, r.s, {}) && Later(c, Find(c, s, k).s, r.s, {})
  {
    hide Wf, Known, Locks, Unique, Later, Get, Find;
    if Find(c, s, k).Hit? {
      GetHit(c, s, t, k, made);
    } else {
      GetMiss(c, s, t, k, made);
    }
  }

  // ----- get_if_present

  lemma HeldSameLife(s: State, r: State)
    requires r == s.(held := r.held) && s.held <= r.held
    requires forall v :: v in r.held ==> Alive(s, v)
    ensures SameLife(s, r)
  {
    forall v ensures Alive(r, v) <==> Alive(s, v) {
      SlotsAlive(s, r, v);
    }
  }

  /** A caller that receives a pointer to a live value changes nothing for anybody else. */
  lemma HeldInv(c: Config, s: State, r: State)
    requires Inv(c, s) && r == s.(held := r.held) && s.held <= r.held
    requires forall v :: v in r.held ==> Alive(s, v)
    ensures Inv(c, r) && Later(c, s, r, {})
  {
    HeldSameLife(s, r);
    hide Wf, Locks, Unique, SameLife, Later;
    KnownSame(s, r);
    UniqueSame(c, s, r);
    LaterRefl(c, s, {});
    LaterSame(c, s, s, r, {});
    WfFrame(c, s, r);
    assert Locks(c, r) by { SameLocks(c, s, r); }
  }

  lemma SameLocks(c: Config, s: State, r: State)
    requires r.elems == s.elems && r.waiters == s.waiters && s.now <= r.now
    ensures Locks(c, s) ==> Locks(c, r)
  {
    forall t, id ensures Creates(r, t, id) <==> Creates(s, t, id) {}
  }

  lemma LiveValue(c: Config, s: State, id: Id)
    requires Live(c, s, id)
    ensures forall v :: v in Pins(Core(s.elems[id].slot)) ==> Alive(s, v)
  {
  }

  lemma PeekKeeps(c: Config, s: State, t: Tid, k: Key)
    requires Inv(c, s) && t !in s.waiters
    ensures var r := Peek(c, s, t, k).s;
      && Inv(c, r) && Later(c, s, r, {}) && r.nextId == s.nextId
      && Later(c, PeekScan(c, s, BucketOf(c, s, k), 0, k).s, r, {})
  {
    hide Wf, Tends, Known, Locks, Unique, Later, PeekScan, Home, Alive;
    var f := PeekScan(c, s, BucketOf(c, s, k), 0, k);
    MaintainedInv(c, s, f.s);
    SameNext(c, s, f.s);
    LaterRefl(c, f.s, {});
    if f.Hit? {
      var s1 := f.s.(held := f.s.held + Pins(f.got));
      LiveValue(c, f.s, f.id);
      assert forall v :: v in f.s.held ==> Alive(f.s, v) by { HeldAlive(f.s); }
      HeldInv(c, f.s, s1);
      LaterTrans(c, s, f.s, s1, {});
      if f.got.Future? {
        JoinInv(c, s1, t, f.got.f, f.id);
        LaterTrans(c, s, s1, s1.(waiters := s1.waiters[t := Join(f.got.f)]), {});
        LaterTrans(c, f.s, s1, s1.(waiters := s1.waiters[t := Join(f.got.f)]), {});
      }
    }
  }

  lemma HeldAlive(s: State)
    ensures forall v :: v in s.held + s.pinned ==> Alive(s, v)
  {
  }

  // ----- expire

  lemma StruckLater(c: Config, s: State, id: Id)
    requires id in s.elems
    ensures Later(c, s, WithSlot(s, id, Expired(s.elems[id].slot)), {s.elems[id].key})
    ensures Known(s) ==> Known(WithSlot(s, id, Expired(s.elems[id].slot)))
  {
    var r := WithSlot(s, id, Expired(s.elems[id].slot));
    forall v | Alive(r, v) ensures Alive(s, v) {}
    if Known(s) {
      hide Alive;
      forall i | i in r.elems ensures i < r.nextId && KnownContent(r, Core(r.elems[i].slot)) {
        assert KnownContent(s, Core(s.elems[i].slot));
      }
    }
  }

  lemma StruckLocks(c: Config, s: State, id: Id)
    requires id in s.elems
    ensures Locks(c, s) ==> Locks(c, WithSlot(s, id, Expired(s.elems[id].slot)))
  {
    var r := WithSlot(s, id, Expired(s.elems[id].slot));
    forall t, i ensures Creates(r, t, i) <==> Creates(s, t, i) {}
  }

  lemma StruckInv(c: Config, s: State, id: Id)
    requires Inv(c, s) && id in s.elems
    ensures var r := WithSlot(s, id, Expired(s.elems[id].slot)); Inv(c, r) && Later(c, s, r, {s.elems[id].key})
  {
    var r := WithSlot(s, id, Expired(s.elems[id].slot));
    StruckLater(c, s, id);
    StrikeWf(c, s, id);
    UniqueLater(c, s, r, {s.elems[id].key}) by { hide Wf, Later; }
    hide Wf, Known, Locks, Unique, Later;
    StruckLocks(c, s, id);
  }

  lemma ForgetKeeps(c: Config, s: State, k: Key)
    requires Inv(c, s)
    ensures var r := Forget(c, s, k).s; Inv(c, r) && Later(c, s, r, {k}) && r.nextId == s.nextId
  {
    hide Wf, Tends, Known, Locks, Unique, Later, Scan, Home, Strike;
    var f := Scan(c, s, BucketOf(c, s, k), 0, k, false);
    MaintainedInv(c, s, f.s);
    SameNext(c, s, f.s);
    TendsLater(c, s, f.s, {k});
    if f.Hit? {
      LocksTends(c, s, f.s);
      StruckInv(c, f.s, f.id);
      var s1 := WithSlot(f.s, f.id, Expired(f.s.elems[f.id].slot));
      var r := Strike(c, f.s, f.id);
      MaintainedInv(c, s1, r);
      TendsLater(c, s1, r, {k});
      LaterTrans(c, s, f.s, s1, {k});
      LaterTrans(c, s, s1, r, {k});
      SameNext(c, s1, r);
    }
  }

  // ----- the creator's second critical section

  lemma InstallAlive(s: State, t: Tid, id: Id)
    requires t in s.waiters && Settled(s, s.waiters[t].fut)
    requires id in s.elems && s.elems[id].slot.Pending? && s.elems[id].slot.fut == s.waiters[t].fut
    ensures var r := Install(s, id, s.futs[s.waiters[t].fut].value);
      forall v :: Alive(r, v) ==> Alive(s, v)
  {
    var o := s.futs[s.waiters[t].fut].value;
    var r := Install(s, id, o);
    forall v | Alive(r, v) ensures Alive(s, v) {
      if o.Done? && v == o.v != Null {
        assert Holds(s.futs, s.elems[id].slot, v);
      }
    }
  }

  lemma InstallLater(c: Config, s: State, t: Tid, id: Id)
    requires Known(s) && Locks(c, s) && Creates(s, t, id) && Settled(s, s.waiters[t].fut)
    ensures var r := Install(s, id, s.futs[s.waiters[t].fut].value); Later(c, s, r, {}) && Known(r)
  {
    var o := s.futs[s.waiters[t].fut].value;
    var r := Install(s, id, o);
    CreatorsElement(c, s, t, id);
    hide Locks;
    InstallAlive(s, t, id);
    hide Alive;
    forall i | i in r.elems ensures i < r.nextId && KnownContent(r, Core(r.elems[i].slot)) {
      assert KnownContent(s, Core(s.elems[i].slot));
    }
  }

  lemma ReleaseLife(s: State, t: Tid, id: Id, o: Outcome)
    requires id in s.elems && s.elems[id].useCount > 0 && s.pinned == ValueOf(o)
    requires t in s.waiters && s.waiters[t].fut in s.futs && s.futs[s.waiters[t].fut] == Some(o)
    ensures SameLife(s, Release(s, t, id, o))
  {
    WakeLife(WithLock(s, id, -1).(pinned := {}, held := s.held + ValueOf(o)), t, o);
    var s1 := WithLock(s, id, -1).(pinned := {}, held := s.held + ValueOf(o));
    forall v ensures Alive(s1, v) <==> Alive(s, v) {
      SlotsAlive(s, s1, v);
      SlotsAlive(s1, s, v);
    }
  }

  /** A thread that stops waiting hands its reference to the value over to its caller. */
  lemma WakeLife(s: State, t: Tid, o: Outcome)
    requires t in s.waiters && s.waiters[t].fut in s.futs && s.futs[s.waiters[t].fut] == Some(o)
    requires ValueOf(o) <= s.held
    ensures SameLife(s, s.(waiters := s.waiters - {t}))
  {
    var r := s.(waiters := s.waiters - {t});
    forall v ensures Alive(r, v) <==> Alive(s, v) {
      if u :| u in s.waiters && Completed(s.futs, s.waiters[u].fut, v) {
        if u != t {
          assert u in r.waiters && r.waiters[u] == s.waiters[u];
        }
      }
    }
  }

  /** `r` is `s` after element `id` has been resolved and its creator `t` has released the lock. */
  ghost predicate Closes(s: State, r: State, t: Tid, id: Id) {
    && r.waiters == s.waiters - {t} && s.now <= r.now
    && id in r.elems && !r.elems[id].slot.Pending? && r.elems[id].useCount == 0
    && (forall i :: i in r.elems && i != id ==> i in s.elems && SameElem(s.elems[i], r.elems[i]))
    && (forall i :: i in s.elems && i !in r.elems ==> s.elems[i].useCount == 0)
  }

  lemma FinishCloses(c: Config, s: State, t: Tid, id: Id, o: Outcome, s2: State)
    requires id in s.elems && s.elems[id].useCount == 1
    requires Tends(c, Install(s, id, o), s2) && id in s2.elems && s2.elems[id].useCount > 0
    ensures Closes(s, Release(s2, t, id, o), t, id)
  {
    var s1 := Install(s, id, o);
    assert SameElem(s1.elems[id], s2.elems[id]);
  }

  lemma ClosesLocks(c: Config, s: State, r: State, t: Tid, id: Id)
    requires Locks(c, s) && Creates(s, t, id) && Closes(s, r, t, id)
    ensures Locks(c, r)
  {
    forall u, i ensures Creates(r, u, i) <==> Creates(s, u, i) && u != t {}
    forall i | i in r.elems && r.elems[i].useCount > 0
      ensures r.elems[i].useCount == 1 && exists u :: Creates(r, u, i)
    {
      var u :| Creates(s, u, i);
      assert Creates(r, u, i);
    }
    forall u, i | Creates(r, u, i)
      ensures i in r.elems && r.elems[i].useCount == 1
      ensures r.elems[i].slot.Pending? && r.elems[i].slot.fut == r.waiters[u].fut
    {
      assert Creates(s, u, i) && i != id;
      assert SameElem(s.elems[i], r.elems[i]);
    }
    forall i | i in r.elems && r.elems[i].slot.Pending? && r.elems[i].useCount == 0 ensures MaxAged(c, r, r.elems[i]) {
      assert SameElem(s.elems[i], r.elems[i]);
    }
  }

  lemma FinishKeeps(c: Config, s: State, t: Tid)
    requires Valid(c) && Inv(c, s) && t in s.waiters && s.waiters[t].Creator? && Settled(s, s.waiters[t].fut)
    ensures var r := Finish(c, s, t).s; Inv(c, r) && Later(c, s, r, {}) && r.nextId == s.nextId
  {
    hide Wf, Tends, Known, Unique, Later, MaybeRehash, Locks;
    var Creator(f, id) := s.waiters[t];
    var o := s.futs[f].value;
    assert Creates(s, t, id);
    CreatorsElement(c, s, t, id);
    var s1 := Install(s, id, o);
    InstallWf(c, s, id, o);
    InstallLater(c, s, t, id);
    var s2 := if o.Failed? then s1 else MaybeRehash(c, s1);
    TendsRefl(c, s1);
    ServedStays(c, s1, s2, id);
    KnownTends(c, s1, s2);
    TendsLater(c, s1, s2, {});
    LaterTrans(c, s, s1, s2, {});
    SameNext(c, s1, s2);
    var r := Release(s2, t, id, o);
    ReleaseLife(s2, t, id, o);
    FinishCloses(c, s, t, id, o, s2);
    ClosesLocks(c, s, r, t, id);
    FinishUnique(c, s, s2);
    FinishEnds(c, s, s2, t, id, o);
    assert s2.queue.Balanced() && Bounded(c, s2);
  }

  lemma CreatorsElement(c: Config, s: State, t: Tid, id: Id)
    requires Creates(s, t, id)
    ensures Locks(c, s) ==>
      && id in s.elems && s.elems[id].slot.Pending? && s.elems[id].useCount == 1
      && s.elems[id].slot.fut == s.waiters[t].fut
  {
  }

  lemma FinishUnique(c: Config, s: State, s': State)
    requires Known(s) && Known(s') && Later(c, s, s', {}) && s'.nextId == s.nextId
    ensures Unique(c, s) ==> Unique(c, s')
  {
    UniqueLater(c, s, s', {});
  }

  lemma FinishEnds(c: Config, s: State, s2: State, t: Tid, id: Id, o: Outcome)
    requires id in s2.elems && s2.elems[id].useCount > 0 && Known(s2)
    requires SameLife(s2, Release(s2, t, id, o))
    ensures var r := Release(s2, t, id, o);
      Known(r) && (Wf(c, s2) ==> Wf(c, r)) && (Unique(c, s2) ==> Unique(c, r))
        && (Later(c, s, s2, {}) ==> Later(c, s, r, {}))
  {
    var r := Release(s2, t, id, o);
    hide Wf, Unique, Later, SameLife;
    KnownSame(s2, r);
    UniqueSame(c, s2, r);
    LaterSame(c, s, s2, r, {});
    LockWf(c, s2, id, -1, r);
  }

  // ----- the remaining steps

  lemma WakeKeeps(c: Config, s: State, t: Tid)
    requires Inv(c, s) && t in s.waiters && s.waiters[t].Join? && Settled(s, s.waiters[t].fut)
    ensures var r := Wake(s, t).s; Inv(c, r) && Later(c, s, r, {}) && r.nextId == s.nextId
  {
    var o := s.futs[s.waiters[t].fut].value;
    var s1 := s.(held := s.held + ValueOf(o));
    var r := s1.(waiters := s.waiters - {t});
    forall v | v in s1.held ensures Alive(s, v) {
      if v in ValueOf(o) {
        assert Completed(s.futs, s.waiters[t].fut, v);
      }
    }
    hide Wf, Unique, Known, Later, SameLife, Locks, Alive;
    HeldInv(c, s, s1);
    WakeLife(s1, t, o);
    WakeLocks(c, s1, t);
    UniqueSame(c, s1, r);
    LaterSame(c, s, s1, r, {});
    WakeKnown(s1, t);
    WfFrame(c, s1, r);
  }

  lemma WakeKnown(s: State, t: Tid)
    ensures var r := s.(waiters := s.waiters - {t}); SameLife(s, r) && Known(s) ==> Known(r)
  {
    var r := s.(waiters := s.waiters - {t});
    if SameLife(s, r) && Known(s) {
      KnownSame(s, r);
    }
  }

  lemma WakeLocks(c: Config, s: State, t: Tid)
    requires t in s.waiters && s.waiters[t].Join?
    ensures Locks(c, s) ==> Locks(c, s.(waiters := s.waiters - {t}))
  {
    var r := s.(waiters := s.waiters - {t});
    forall u, i ensures Creates(r, u, i) <==> Creates(s, u, i) {}
  }

  lemma CompleteRevives(s: State, f: Fut, o: Outcome, v: Ptr)
    requires CanComplete(s, f, o)
    ensures Alive(Complete(s, f, o), v) ==> Alive(s, v) || (v in ValueOf(o) && v !in s.born)
  {
    var r := Complete(s, f, o);
    if Alive(r, v) {
      if id :| id in r.elems && Holds(r.futs, r.elems[id].slot, v) {
        assert v in ValueOf(o) || Holds(s.futs, s.elems[id].slot, v);
      } else if t :| t in r.waiters && Completed(r.futs, r.waiters[t].fut, v) {
        assert v in ValueOf(o) || Completed(s.futs, s.waiters[t].fut, v);
      }
    }
  }

  lemma CompleteLater(c: Config, s: State, f: Fut, o: Outcome)
    requires Known(s) && CanComplete(s, f, o)
    ensures Later(c, s, Complete(s, f, o), {})
  {
    forall v ensures Alive(Complete(s, f, o), v) ==> Alive(s, v) || (v in ValueOf(o) && v !in s.born) {
      CompleteRevives(s, f, o, v);
    }
    hide Alive;
  }

  lemma CompleteKnown(c: Config, s: State, f: Fut, o: Outcome)
    requires Known(s) && CanComplete(s, f, o)
    ensures Known(Complete(s, f, o))
  {
    var r := Complete(s, f, o);
    forall v ensures Alive(r, v) ==> Alive(s, v) || (v in ValueOf(o) && v !in s.born) {
      CompleteRevives(s, f, o, v);
    }
    hide Alive;
    forall id | id in r.elems ensures id < r.nextId && KnownContent(r, Core(r.elems[id].slot)) {
      assert KnownContent(s, Core(s.elems[id].slot));
    }
  }

  lemma CompleteKeeps(c: Config, s: State, f: Fut, o: Outcome)
    requires Inv(c, s) && CanComplete(s, f, o)
    ensures var r := Complete(s, f, o); Inv(c, r) && Later(c, s, r, {}) && r.nextId == s.nextId
  {
    hide Alive, Unique, Wf, Known, Later, CanComplete;
    CompleteLater(c, s, f, o);
    CompleteKnown(c, s, f, o);
    FinishUnique(c, s, Complete(s, f, o));
    SameLocks(c, s, Complete(s, f, o));
    WfFrame(c, s, Complete(s, f, o));
  }

  lemma TuneKeeps(c: Config, s: State, lf: real)
    requires Valid(c) && Inv(c, s)
    ensures var r := Tune(c, s, lf); Inv(c, r) && Later(c, s, r, {}) && r.nextId == s.nextId
  {
    hide Wf, Tends, Known, Locks, Unique, Later, MaybeRehash, SameLife;
    if lf <= 0.0 {
      LaterRefl(c, s, {});
    } else {
      var s1 := s.(lf := lf);
      WfFrame(c, s, s1);
      SameEverything(s, s1);
      KnownTune(s, lf);
      UniqueSame(c, s, s1);
      SameLocks(c, s, s1);
      LaterRefl(c, s, {});
      LaterSame(c, s, s, s1, {});
      var r := MaybeRehash(c, s1);
      MaintainedInv(c, s1, r);
      LaterTrans(c, s, s1, r, {});
      SameNext(c, s1, r);
    }
  }

  lemma KnownTune(s: State, lf: real)
    ensures Known(s) ==> Known(s.(lf := lf))
  {
    SameEverything(s, s.(lf := lf));
    if Known(s) {
      KnownSame(s, s.(lf := lf));
    }
  }

  lemma SameEverything(s: State, r: State)
    requires r.elems == s.elems && r.futs == s.futs && r.waiters == s.waiters
    requires r.held == s.held && r.pinned == s.pinned
    requires r.born == s.born && r.nextId == s.nextId && r.now == s.now && r.buckets == s.buckets
    ensures SameLife(s, r)
  {
  }

  lemma ObserveKeeps(c: Config, s: State)
    requires Inv(c, s)
    ensures Inv(c, Observe(c, s)) && Later(c, s, Observe(c, s), {}) && Observe(c, s).nextId == s.nextId
  {
    hide Wf, Tends, Known, Locks, Unique, Later, Interfere;
    MaintainedInv(c, s, Observe(c, s));
    SameNext(c, s, Observe(c, s));
  }
}
