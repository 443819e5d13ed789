/** Scan resistance of the whole cache: a burst of creations cannot push out the hotter half of a full queue. */
module Scans {
  import opened Sequences
  import opened QueueModel
  import opened ElementState
  import opened CacheState
  import opened Maintenance
  import opened Lookup
  import opened Resize
  import opened Evolution
  import opened Operations
  import opened Sections
  import opened Protocol

  /** The element owns a value or waits for one. */
  predicate HasContent(e: Elem) {
    Core(e.slot) != Nothing && Core(e.slot) != Value(Null)
  }

  ghost predicate Vital(s: State) {
    forall id :: id in s.queue.All() ==> id in s.elems && HasContent(s.elems[id])
  }

  /** The age limit of the element does not pass before time `end`. */
  predicate Young(c: Config, e: Elem, end: int) {
    c.maxAge.Some? ==> end <= e.maxAge
  }

  /** No deadline of a linked element passes before time `end`. */
  ghost predicate InTime(c: Config, s: State, end: int) {
    forall id :: id in s.queue.All() ==>
      id in s.elems && Young(c, s.elems[id], end) && (c.accessExpire.Some? ==> end <= s.elems[id].access)
  }

  /** No maintenance before time `end` can erase a linked element: each has content, and it is young or locked. */
  ghost predicate Staunch(c: Config, s: State, end: int) {
    forall id :: id in s.queue.All() ==>
      id in s.elems && HasContent(s.elems[id]) && (s.elems[id].useCount > 0 || Young(c, s.elems[id], end))
  }

  lemma SteadyStaunch(c: Config, s: State, end: int)
    ensures Vital(s) && InTime(c, s, end) ==> Staunch(c, s, end)
  {
  }

  lemma StaunchLives(c: Config, s: State, end: int, id: Id)
    requires Wf(c, s) && Staunch(c, s, end) && s.now <= end && id in s.queue.All()
    ensures id in s.elems && (s.elems[id].useCount > 0 || !Dead(c, s, s.elems[id]))
  {
    hide Chained, Accounted, Linked;
    var x := s.elems[id].slot;
    if x.Strong? {
      assert Holds(s.futs, s.elems[id].slot, x.v);
    }
  }

  lemma StaunchTends(c: Config, s: State, s': State, end: int)
    requires Wf(c, s') && forall id :: id in s'.queue.All() ==> id in s.queue.All()
    ensures Staunch(c, s, end) && Tends(c, s, s') ==> Staunch(c, s', end)
  {
    hide Chained, Accounted, Coupled;
  }

  /** Maintenance that leaves the queue and the access deadlines alone. */
  ghost predicate Spares(c: Config, s: State, s': State) {
    Tends(c, s, s') && SameAccess(s, s') && Wf(c, s') && s'.queue == s.queue
  }

  lemma SparesTrans(c: Config, s: State, s': State, s'': State)
    ensures Spares(c, s, s') && Spares(c, s', s'') ==> Spares(c, s, s'')
  {
    hide Wf;
    TendsTrans(c, s, s', s'');
  }

  lemma SparesStaunch(c: Config, s: State, s': State, end: int)
    ensures Spares(c, s, s') && Staunch(c, s, end) ==> Staunch(c, s', end)
  {
    hide Wf, Tends, Staunch;
    if Spares(c, s, s') {
      StaunchTends(c, s, s', end);
    }
  }

  lemma SparesRefl(c: Config, s: State)
    ensures Wf(c, s) ==> Spares(c, s, s)
  {
    hide Wf, Tends;
    TendsRefl(c, s);
  }

  lemma ObserveSpares(c: Config, s: State)
    requires Wf(c, s)
    ensures Spares(c, s, Observe(c, s))
  {
    hide Wf, Tends;
  }

  lemma SweepSpares(c: Config, s: State, id: Id, end: int)
    requires Wf(c, s) && Staunch(c, s, end) && id in s.elems && Sweep(c, s, id).s.now <= end
    ensures Spares(c, s, Sweep(c, s, id).s)
  {
    hide Wf, Tends, Trims, Observe, Home, Dead, Alive, Staunch;
    var s1 := Observe(c, s);
    ObserveSpares(c, s);
    SparesStaunch(c, s, s1, end);
    ExpiredIsDead(c, s1, id);
    SweepNow(c, s, id);
    if id in s1.queue.All() {
      StaunchLives(c, s1, end, id);
    }
  }

  lemma SweepNow(c: Config, s: State, id: Id)
    requires Wf(c, s) && id in s.elems
    ensures Observe(c, s).now <= Sweep(c, s, id).s.now
  {
    hide Wf, Observe, Dead, Alive;
  }

  lemma LookAtSpares(c: Config, s: State, id: Id, k: Key, end: int)
    requires Wf(c, s) && Staunch(c, s, end) && id in s.elems && LookAt(c, s, id, k, true).s.now <= end
    ensures Spares(c, s, LookAt(c, s, id, k, true).s)
  {
    hide Wf, Tends, Trims, Sweep, Observe, Home, Dead, IsExpired, Staunch;
    var r := Sweep(c, s, id);
    TendsNow(c, r.s, Observe(c, r.s));
    SweepSpares(c, s, id, end);
    if r.Lives? {
      ObserveSpares(c, r.s);
      SparesTrans(c, s, r.s, Observe(c, r.s));
    }
  }

  lemma {:induction false} ScanSpares(c: Config, s: State, b: nat, i: nat, k: Key, end: int)
    requires Staunch(c, s, end)
    requires Wf(c, s) && b < |s.buckets| && b == Home(c, |s.buckets|, k)
    requires i <= |s.buckets[b]| && DeadBefore(c, s, b, i, k)
    requires Scan(c, s, b, i, k, true).s.now <= end
    ensures Spares(c, s, Scan(c, s, b, i, k, true).s)
    decreases |s.buckets[b]| - i
  {
    hide Wf, Tends, Trims, Home, LookAt, DeadBefore, FoundOk, Staunch;
    if i == |s.buckets[b]| {
      SparesRefl(c, s);
    } else {
      ChainWf(c, s, b);
      var v := LookAt(c, s, s.buckets[b][i], k, true);
      VisitStays(c, s, b, i, k, v);
      VisitLeaves(c, s, b, i, k, v);
      if v.Matches? {
        LookAtSpares(c, s, s.buckets[b][i], k, end);
      } else {
        var j := if v.Stays? then i + 1 else i;
        var r := Scan(c, v.s, b, j, k, true).s;
        TendsNow(c, v.s, r);
        LookAtSpares(c, s, s.buckets[b][i], k, end);
        SparesStaunch(c, s, v.s, end);
        ScanSpares(c, v.s, b, j, k, end);
        SparesTrans(c, s, v.s, r);
      }
    }
  }

  lemma {:induction false} EraseAllSpares(c: Config, s: State, b: nat, i: nat, end: int)
    requires Staunch(c, s, end)
    requires Wf(c, s) && b <= |s.buckets| && (b < |s.buckets| ==> i <= |s.buckets[b]|)
    requires EraseAllExpired(c, s, b, i).now <= end
    ensures Spares(c, s, EraseAllExpired(c, s, b, i))
    decreases |s.buckets| - b, if b < |s.buckets| then |s.buckets[b]| - i else 0
  {
    hide Wf, Tends, Trims, Home, Sweep, Staunch;
    if b == |s.buckets| {
      SparesRefl(c, s);
    } else if i == |s.buckets[b]| {
      EraseAllSpares(c, s, b + 1, 0, end);
    } else {
      ChainWf(c, s, b);
      var w := Sweep(c, s, s.buckets[b][i]);
      SweptBuckets(c, s, b, i, w);
      var j := if w.Drops? then i else i + 1;
      var r := EraseAllExpired(c, w.s, b, j);
      TendsNow(c, w.s, r);
      SweepSpares(c, s, s.buckets[b][i], end);
      SparesStaunch(c, s, w.s, end);
      EraseAllSpares(c, w.s, b, j, end);
      SparesTrans(c, s, w.s, r);
    }
  }

  lemma MaybeRehashSpares(c: Config, s: State, end: int)
    requires Wf(c, s) && Staunch(c, s, end) && s.lf > 0.0 && c.wordSize > 0 && MaybeRehash(c, s).now <= end
    ensures Spares(c, s, MaybeRehash(c, s))
  {
    hide Wf, Tends, Trims, EraseAllExpired, Rehash, Target, Staunch;
    SparesRefl(c, s);
    if |s.buckets| < Target(c, s) {
      EraseAllSpares(c, s, 0, 0, end);
    }
  }

  lemma CleanupSpares(c: Config, s: State, end: int)
    requires Wf(c, s) && Staunch(c, s, end) && Cleanup(c, s).now <= end
    ensures Spares(c, s, Cleanup(c, s))
  {
    hide Wf, Tends, Observe, SameAccess, Dead, Erase, IsExpired, Staunch;
    SparesRefl(c, s);
    if s.queue.All() != [] {
      var id := s.queue.Coldest();
      LinkedExists(c, s);
      var s1 := Observe(c, s);
      ObserveSpares(c, s);
      SparesStaunch(c, s, s1, end);
      if s.elems[id].useCount == 0 {
        CleanupNow(c, s);
        StaunchLives(c, s1, end, id);
        ExpiredIsDead(c, s1, id);
      }
    }
  }

  lemma CleanupNow(c: Config, s: State)
    requires Wf(c, s) && s.queue.All() != [] && s.queue.Coldest() in s.elems && s.elems[s.queue.Coldest()].useCount == 0
    ensures Observe(c, s).now <= Cleanup(c, s).now
  {
    hide Wf, Observe, SameAccess, Dead, IsExpired;
    var e := EraseIfExpired(c, s, s.queue.Coldest());
    if e.done {
      TendsNow(c, e.s, Cleanup(c, e.s));
    }
  }

  // ----- a creation in a full queue

  /** With at most the newest element stale, cutting off the stale end leaves at least the others. */
  lemma StaleCutSize(s: State, q: seq<Id>, now: int, last: Id, n: nat)
    requires NoDup(s.queue.All()) && |s.queue.All()| == n + 1
    requires forall id :: id in s.queue.All() && id != last ==> id in s.elems && now <= s.elems[id].access
    ensures StaleCut(s, q, now) ==> n <= |q| && q <= s.queue.All()
  {
    var all := s.queue.All();
    if StaleCut(s, q, now) && n > 0 {
      assert all[n - 1] != all[n];
      assert all[n - 1] == last || now <= s.elems[all[n - 1]].access;
      assert all[n] == last || now <= s.elems[all[n]].access;
    }
  }

  lemma AccessSpares(c: Config, s: State, last: Id, n: nat, end: int)
    requires Wf(c, s) && s.queue.Balanced() && |s.queue.All()| == n + 1 && AccessOnCreate(c, s).now <= end
    requires forall id :: id in s.queue.All() && id != last ==>
      id in s.elems && (c.accessExpire.Some? ==> end <= s.elems[id].access)
    ensures var r := AccessOnCreate(c, s); r.queue.All() <= s.queue.All() && n <= |r.queue.All()|
  {
    hide Wf, StaleCut, ShrinkStale, Observe, SameAccess;
    if c.accessExpire.Some? {
      var s1 := Observe(c, s);
      TendsNow(c, s1, ShrinkStale(c, s1, s1.now));
      LinkedNoDup(c, s);
      StaleCutSize(s1, ShrinkStale(c, s1, s1.now).queue.All(), s1.now, last, n);
    }
  }

  /** A creation in a full queue of elements that have content and time left is one arrival, however late it is. */
  lemma CreateArrives(c: Config, s: State, k: Key, made: Made, at: int, n: nat, end: int)
    requires c.queued && c.maxSize == Some(n)
    requires Wf(c, s) && Vital(s) && InTime(c, s, end) && s.queue.Balanced() && |s.queue.All()| == n
    requires !made.Throws? && (made.Ready? ==> made.v != Null) && Create(c, s, k, made, at).now <= end
    ensures var r := Create(c, s, k, made, at); Staunch(c, r, end) && Arrives(s.queue, s.nextId, r.queue, n)
  {
    hide Wf, Tends, Vital, InTime, Staunch, Cleanup, Insert, AccessOnCreate, ApplyMaxSize, SameAccess;
    var s1 := Invent(s, made, Late(c, s, at));
    WfFrame(c, s, s1);
    var s2 := Insert(c, s1, k, FirstSlot(made), at);
    InsertStaunch(c, s, k, made, at, end);
    var s3 := Cleanup(c, s2);
    var s4 := AccessOnCreate(c, s3);
    var r := ApplyMaxSize(c, s4);
    TendsNow(c, s3, s4);
    TendsNow(c, s4, r);
    CleanupSpares(c, s2, end);
    SparesStaunch(c, s2, s3, end);
    AccessKept(c, s, s2, s3, end);
    assert s2.queue == s.queue.Create(s.nextId);
    AccessSpares(c, s3, s.nextId, n, end);
    TendsTrans(c, s3, s4, r);
    StaunchTends(c, s3, r, end);
    MaxSizeKeeps(c, s4, n);
  }

  lemma MaxSizeKeeps(c: Config, s: State, n: nat)
    requires Wf(c, s) && c.maxSize == Some(n) && n <= |s.queue.All()|
    ensures |ApplyMaxSize(c, s).queue.All()| == n && ApplyMaxSize(c, s).queue.Balanced()
  {
    hide Wf, Tends;
  }

  lemma InsertStaunch(c: Config, s: State, k: Key, made: Made, at: int, end: int)
    requires c.queued && Wf(c, s) && Wf(c, Invent(s, made, Late(c, s, at))) && Vital(s) && InTime(c, s, end)
    requires !made.Throws? && (made.Ready? ==> made.v != Null)
    ensures var r := Insert(c, Invent(s, made, Late(c, s, at)), k, FirstSlot(made), at);
      && Staunch(c, r, end) && r.queue == s.queue.Create(s.nextId)
      && (forall id :: id in r.queue.All() && id != s.nextId ==> id in s.queue.All())
      && (forall id :: id in s.elems ==> id in r.elems && r.elems[id].access == s.elems[id].access)
  {
    hide Wf, Insert, Home, Queue.Create;
    InsertLinked(c, s, s.nextId);
  }

  /** The access deadlines of the old elements are the same after the cleanup. */
  lemma AccessKept(c: Config, s: State, s2: State, s3: State, end: int)
    requires InTime(c, s, end) && Spares(c, s2, s3)
    requires forall id :: id in s2.queue.All() && id != s.nextId ==> id in s.queue.All()
    requires forall id :: id in s.elems ==> id in s2.elems && s2.elems[id].access == s.elems[id].access
    ensures forall id :: id in s3.queue.All() && id != s.nextId ==>
      id in s3.elems && (c.accessExpire.Some? ==> end <= s3.elems[id].access)
  {
    hide Tends, Chained, Coupled, Accounted;
  }

  // ----- runs

  /** The request misses, a creation ends well or concerns an unlinked element, or the step leaves the elements alone.
      */
  predicate NoHit(c: Config, s: State, step: Step)
    requires Valid(c) && Inv(c, s) && Enabled(c, s, step)
  {
    match step
    case Get(_, k, _) => Find(c, s, k).Miss?
    case Finish(t) =>
      var id, o := s.waiters[t].id, s.futs[s.waiters[t].fut].value;
      id in s.queue.All() ==> id in s.elems && o.Done? && o.v != Null && !Marked(s.elems[id].slot)
    case Forget(_) => false
    case _ => true
  }

  /** Every step of the run is such a step, and in every state on the way the deadlines of the linked elements lie at
      `end` or later. */
  ghost predicate Undisturbed(c: Config, s: State, steps: seq<Step>, end: int)
    requires Valid(c) && Inv(c, s) && Runs(c, s, steps)
    decreases |steps|
  {
    hide Later, Next, Known, Locks, Unique;
    && InTime(c, s, end)
    && (steps == [] || (NoHit(c, s, steps[0]) && Undisturbed(c, Next(c, s, steps[0]).s, steps[1..], end)))
  }

  /** The queue after one such step: untouched, or full again after one arrival. */
  ghost predicate Moves(s: State, r: State, n: nat) {
    Vital(r) && (r.queue == s.queue || Arrives(s.queue, s.nextId, r.queue, n))
  }

  lemma StaunchVital(c: Config, s: State, r: State, end: int)
    requires r.queue == s.queue && forall id :: id in s.elems ==> id in r.elems && r.elems[id].slot == s.elems[id].slot
    ensures Staunch(c, s, end) ==> Vital(r)
  {
  }

  lemma GetMoves(c: Config, s: State, t: Tid, k: Key, made: Made, n: nat, end: int)
    requires c.queued && c.maxSize == Some(n)
    requires Valid(c) && Inv(c, s) && Vital(s) && InTime(c, s, end) && |s.queue.All()| == n
    requires t !in s.waiters && Find(c, s, k).Miss? && Operations.Get(c, s, t, k, made).s.now <= end
    ensures Moves(s, Operations.Get(c, s, t, k, made).s, n)
  {
    hide Wf, Tends, Trims, Known, Locks, Unique, Vital, InTime, Staunch, Scan, FoundOk, DeadBefore, Home, Create;
    hide MaybeRehash, Alive, Effective, Spares;
    var s1, s2, s3 := Find(c, s, k).s, AskedAt(c, s, k), MadeAt(c, s, k);
    var r := Operations.Get(c, s, t, k, made).s;
    GetNow(c, s, t, k, made);
    SteadyStaunch(c, s, end);
    DeadBeforeNone(c, s, BucketOf(c, s, k), k);
    TendsNow(c, s1, s2);
    TendsNow(c, s2, s3);
    ScanSpares(c, s, BucketOf(c, s, k), 0, k, end);
    ObserveSpares(c, s1);
    ObserveSpares(c, s2);
    SparesTrans(c, s1, s2, s3);
    SparesTrans(c, s, s1, s3);
    SparesSteady(c, s, s3, end);
    SparesStaunch(c, s, s3, end);
    var m := Asked(c, s, k, made);
    if m.Throws? {
      StaunchVital(c, s3, r, end);
    } else {
      var s4 := Create(c, s3, k, m, s2.now);
      CreateFields(c, s3, k, m, s2.now);
      CreateArrives(c, s3, k, m, s2.now, n, end);
      if m.Promise? && !Slow(c, s, k) {
        StaunchVital(c, s4, r, end);
      } else {
        var s5 := MaybeRehash(c, s4);
        MaybeRehashSpares(c, s4, end);
        SparesStaunch(c, s4, s5, end);
        ServedStays(c, s4, s5, s3.nextId);
        StaunchVital(c, s5, r, end);
        SparesQueue(c, s4, s5);
      }
    }
  }

  lemma SparesQueue(c: Config, s: State, s': State)
    ensures Spares(c, s, s') ==> s'.queue == s.queue && s'.nextId == s.nextId && s'.lf == s.lf && Wf(c, s')
  {
    hide Wf;
  }

  lemma SparesSteady(c: Config, s: State, s': State, end: int)
    ensures Spares(c, s, s') && Vital(s) && InTime(c, s, end) ==>
      Vital(s') && InTime(c, s', end) && s'.queue == s.queue && s'.nextId == s.nextId && s'.lf == s.lf
  {
    hide Chained, Coupled, Accounted;
  }

  /** The clock on the way through a creation. */
  lemma GetNow(c: Config, s: State, t: Tid, k: Key, made: Made)
    requires Valid(c) && Inv(c, s) && t !in s.waiters && Find(c, s, k).Miss?
    ensures var r := Operations.Get(c, s, t, k, made).s;
      var m := Asked(c, s, k, made);
      && MadeAt(c, s, k).now <= r.now
      && (!m.Throws? ==> Create(c, MadeAt(c, s, k), k, m, AskedAt(c, s, k).now).now <= r.now)
      && (!m.Throws? && (m.Ready? || Slow(c, s, k)) ==>
            var s4 := Create(c, MadeAt(c, s, k), k, m, AskedAt(c, s, k).now);
            Wf(c, s4) && s4.lf > 0.0 && MaybeRehash(c, s4).now == r.now)
  {
    hide Wf, Tends, Known, Locks, Unique, Find, Create, MaybeRehash, Effective;
    var f := Find(c, s, k);
    var s2, s3 := AskedAt(c, s, k), MadeAt(c, s, k);
    SameNext(c, s, f.s);
    SameNext(c, f.s, s2);
    SameNext(c, s2, s3);
    var m := Asked(c, s, k, made);
    if !m.Throws? {
      var s4 := Create(c, s3, k, m, s2.now);
      CreateFields(c, s3, k, m, s2.now);
      CreateNow(c, s3, k, m, s2.now);
      TendsNow(c, s4, MaybeRehash(c, s4));
    }
  }

  lemma CreateNow(c: Config, s: State, k: Key, made: Made, at: int)
    requires Wf(c, s) && !made.Throws?
    ensures s.now <= Create(c, s, k, made, at).now
  {
    hide Wf, Tends, AfterInsert, Insert, Inserted;
    var s1 := Invent(s, made, Late(c, s, at));
    WfFrame(c, s, s1);
    InsertFields(c, s1, k, FirstSlot(made), at);
    InventFields(c, s, made, at);
    var s2 := Insert(c, s1, k, FirstSlot(made), at);
    TendsNow(c, s2, AfterInsert(c, s2));
  }

  lemma FinishMoves(c: Config, s: State, t: Tid, n: nat, end: int)
    requires Valid(c) && Inv(c, s) && Vital(s) && InTime(c, s, end)
    requires t in s.waiters && s.waiters[t].Creator? && Settled(s, s.waiters[t].fut)
    requires NoHit(c, s, Finish(t)) && Operations.Finish(c, s, t).s.now <= end
    ensures Moves(s, Operations.Finish(c, s, t).s, n)
  {
    hide Wf, Tends, Known, Unique, MaybeRehash, Spares;
    var Creator(f, id) := s.waiters[t];
    var o := s.futs[f].value;
    assert Creates(s, t, id);
    CreatorsElement(c, s, t, id);
    hide Locks;
    var s1 := Install(s, id, o);
    InstallWf(c, s, id, o);
    assert Staunch(c, s1, end);
    var s2 := if o.Failed? then s1 else MaybeRehash(c, s1);
    hide Staunch, Vital, InTime;
    TendsRefl(c, s1);
    ServedStays(c, s1, s2, id);
    SparesRefl(c, s1);
    if !o.Failed? {
      MaybeRehashSpares(c, s1, end);
    }
    SparesStaunch(c, s1, s2, end);
    SparesQueue(c, s1, s2);
    StaunchVital(c, s2, Operations.Finish(c, s, t).s, end);
  }

  lemma TuneMoves(c: Config, s: State, lf: real, n: nat, end: int)
    requires Valid(c) && Inv(c, s) && Vital(s) && InTime(c, s, end) && Operations.Tune(c, s, lf).now <= end
    ensures Moves(s, Operations.Tune(c, s, lf), n)
  {
    hide Wf, Tends, Known, Unique, Locks, MaybeRehash, Spares;
    if lf > 0.0 {
      var s1 := s.(lf := lf);
      WfFrame(c, s, s1);
      assert Staunch(c, s1, end);
      hide Staunch, Vital, InTime;
      MaybeRehashSpares(c, s1, end);
      SparesStaunch(c, s1, MaybeRehash(c, s1), end);
      SparesQueue(c, s1, MaybeRehash(c, s1));
      StaunchVital(c, MaybeRehash(c, s1), MaybeRehash(c, s1), end);
    }
  }

  lemma StepMoves(c: Config, s: State, step: Step, n: nat, end: int)
    requires c.queued && c.maxSize == Some(n)
    requires Valid(c) && Inv(c, s) && Vital(s) && InTime(c, s, end) && |s.queue.All()| == n
    requires Enabled(c, s, step) && NoHit(c, s, step) && Next(c, s, step).s.now <= end
    ensures Moves(s, Next(c, s, step).s, n)
  {
    hide Wf, Tends, Known, Locks, Unique, Later, Staunch, InTime, Vital, Operations.Get, Operations.Finish;
    hide Operations.Tune, Find, PeekScan, FoundOk, DeadBefore, Home;
    var r := Next(c, s, step).s;
    match step
    case Get(t, k, made) => GetMoves(c, s, t, k, made, n, end);
    case Finish(t) => FinishMoves(c, s, t, n, end);
    case Tune(lf) => TuneMoves(c, s, lf, n, end);
    case _ =>
      SteadyStaunch(c, s, end);
      StaunchVital(c, s, r, end);
  }

  /** Both queues are full and agree on the hotter half. */
  ghost predicate SameHalf(q: Queue<Id>, q': Queue<Id>, n: nat) {
    |q.All()| == n == |q'.All()| && q'.All()[..n / 2] == q.All()[..n / 2]
  }

  lemma MovesKeepHalf(s: State, r: State, n: nat)
    requires s.queue.Balanced() && |s.queue.All()| == n && Moves(s, r, n)
    ensures SameHalf(s.queue, r.queue, n)
  {
    if r.queue != s.queue {
      ArrivalKeepsHalf(s.queue, s.nextId, r.queue, n);
    }
  }

  lemma NowBefore(c: Config, s: State, r: State, gone: set<Key>)
    ensures Later(c, s, r, gone) ==> s.now <= r.now
  {
  }

  /** Once the queue is full of elements with content, no run without a hit, an `expire` or a failed resolution, however
      many elements it creates and resolves, moves the hotter half of the queue, as long as no linked element's deadline
      passes before its end. */
  lemma {:induction false} HotHalfStays(c: Config, s: State, steps: seq<Step>, n: nat, end: int)
    requires c.queued && c.maxSize == Some(n)
    requires Valid(c) && Inv(c, s) && Runs(c, s, steps) && Undisturbed(c, s, steps, end)
    requires Vital(s) && |s.queue.All()| == n && After(c, s, steps).now <= end
    ensures SameHalf(s.queue, After(c, s, steps).queue, n) && Vital(After(c, s, steps))
    decreases |steps|
  {
    hide Wf, Known, Locks, Unique, Later, Vital, InTime, Next, Enabled, NoHit;
    if steps != [] {
      var s1 := Next(c, s, steps[0]).s;
      NowBefore(c, s1, After(c, s1, steps[1..]), GoneIn(steps[1..]));
      StepMoves(c, s, steps[0], n, end);
      MovesKeepHalf(s, s1, n);
      HotHalfStays(c, s1, steps[1..], n, end);
    }
  }
}
