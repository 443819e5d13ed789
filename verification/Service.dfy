/** What callers get: a live element serves every request for its key, pointers are stable, pending creations are
    joined, and the cache acts as a partial map from keys to live contents. */
module Service {
  import opened ElementState
  import opened CacheState
  import opened Maintenance
  import opened Lookup
  import opened Resize
  import opened Evolution
  import opened Operations
  import opened Sections
  import opened Protocol
  import opened Steps

  /** An element that is live after a step was live before it. */
  lemma LiveBefore(c: Config, s: State, s': State, gone: set<Key>, id: Id)
    requires Known(s) && Later(c, s, s', gone)
    requires id in s.elems && Live(c, s', id)
    ensures Live(c, s, id)
  {
    assert KnownContent(s, Core(s.elems[id].slot));
    if Dead(c, s, s.elems[id]) {
      DeadRemains(c, s, s', gone, s.elems[id], s'.elems[id]);
    }
  }

  lemma KeepsIdentity(c: Config, s: State, s': State, gone: set<Key>, id: Id)
    requires Known(s) && Later(c, s, s', gone) && id in s.elems && id in s'.elems
    ensures Follows(s.elems[id], s'.elems[id])
  {
  }

  /** A hit is on the only live element of the key. */
  lemma FindsLive(c: Config, s: State, k: Key, id: Id, r: Found)
    requires Known(s) && Unique(c, s) && ScanOk(c, s, k, r)
    requires id in s.elems && s.elems[id].key == k && Live(c, r.s, id)
    ensures r.Hit? && r.id == id && r.got == Core(s.elems[id].slot)
  {
    hide Wf;
    MaintainedUnique(c, s, r.s);
    assert SameElem(s.elems[id], r.s.elems[id]);
    if r.Hit? {
      assert Live(c, r.s, r.id);
    }
  }

  /** If the element of key `k` is still live when `get` releases the mutex, `get` served it and created nothing,
      whatever was evicted, erased or rehashed meanwhile. */
  lemma GetServesLive(c: Config, s: State, t: Tid, k: Key, made: Made, id: Id)
    requires Valid(c) && Inv(c, s) && t !in s.waiters
    requires id in s.elems && s.elems[id].key == k
    requires Live(c, Operations.Get(c, s, t, k, made).s, id)
    ensures var r := Operations.Get(c, s, t, k, made);
      !r.created && r.answer == Hands(Core(s.elems[id].slot)) && r.s.nextId == s.nextId
  {
    hide Wf, Later, Tends, Unique, Locks, Known, Find, Create, Serve, FinishNow, Live, Dead, ScanOk;
    GetKeeps(c, s, t, k, made);
    var f := Find(c, s, k);
    var r := Operations.Get(c, s, t, k, made);
    ScanKnown(c, s, k, f);
    LiveThere(c, s, f.s, r.s, id);
    FindsLive(c, s, k, id, f);
    GetHit(c, s, t, k, made);
  }

  lemma ScanKnown(c: Config, s: State, k: Key, r: Found)
    requires Known(s) && ScanOk(c, s, k, r)
    ensures Known(r.s) && r.s.nextId == s.nextId && Later(c, s, r.s, {})
  {
    hide Wf, FoundOk;
    KnownTends(c, s, r.s);
    TendsLater(c, s, r.s, {});
  }

  lemma LiveThere(c: Config, s: State, s1: State, s2: State, id: Id)
    requires Known(s) && Known(s1) && s1.nextId == s.nextId
    requires Later(c, s1, s2, {}) && id in s.elems && Live(c, s2, id)
    ensures Live(c, s1, id)
  {
    LiveBefore(c, s1, s2, {}, id);
  }

  lemma PeekServesLive(c: Config, s: State, t: Tid, k: Key, id: Id)
    requires Inv(c, s) && t !in s.waiters
    requires id in s.elems && s.elems[id].key == k
    requires Live(c, Operations.Peek(c, s, t, k).s, id)
    ensures Operations.Peek(c, s, t, k).answer == Hands(Core(s.elems[id].slot))
  {
    hide Wf, Later, Tends, Unique, Locks, Known, PeekScan, Live, Dead, ScanOk;
    var f := PeekScan(c, s, BucketOf(c, s, k), 0, k);
    ScanKnown(c, s, k, f);
    var r := Operations.Peek(c, s, t, k).s;
    PeekKeeps(c, s, t, k);
    LiveThere(c, s, f.s, r, id);
    FindsLive(c, s, k, id, f);
  }

  // ----- pointer stability over runs

  /** Every `get` and `get_if_present` of key `k` in the run is answered by one of `answers`, and none creates. */
  ghost predicate Serves(c: Config, s: State, steps: seq<Step>, k: Key, answers: set<Answer>)
    requires Valid(c) && Inv(c, s) && Runs(c, s, steps)
    decreases |steps|
  {
    hide Later, Known, Locks, Unique, Wf, Next, Enabled;
    steps != [] ==>
      var r := Next(c, s, steps[0]);
      && ((steps[0].Get? || steps[0].Peek?) && steps[0].k == k ==> r.answer in answers && !r.created)
      && Serves(c, r.s, steps[1..], k, answers)
  }

  lemma {:induction false} ServesMore(c: Config, s: State, steps: seq<Step>, k: Key, answers: set<Answer>,
      more: set<Answer>)
    requires Valid(c) && Inv(c, s) && Runs(c, s, steps)
    requires answers <= more && Serves(c, s, steps, k, answers)
    ensures Serves(c, s, steps, k, more)
    decreases |steps|
  {
    hide Later, Known, Locks, Unique, Wf, Next, Enabled;
    if steps != [] {
      ServesMore(c, Next(c, s, steps[0]).s, steps[1..], k, answers, more);
    }
  }

  /** One step while the element of key `k` stays live afterwards. */
  lemma StepServes(c: Config, s: State, step: Step, id: Id)
    requires Valid(c) && Inv(c, s) && Enabled(c, s, step)
    requires id in s.elems && Live(c, Next(c, s, step).s, id)
    ensures var r := Next(c, s, step);
      (step.Get? || step.Peek?) && step.k == s.elems[id].key ==> r.answer == Hands(Core(s.elems[id].slot)) && !r.created
  {
    hide Later, Known, Locks, Unique, Wf, Live, Operations.Get;
    if step.Get? && step.k == s.elems[id].key {
      GetServesLive(c, s, step.t, step.k, step.made, id);
    } else if step.Peek? && step.k == s.elems[id].key {
      PeekServesLive(c, s, step.t, step.k, id);
    }
  }

  /** A value that is alive, unexpired by age and not forgotten at the end was so all along, and its element is still
      there. */
  lemma ValueStays(c: Config, s: State, s1: State, r: State, gone: set<Key>, gone': set<Key>, id: Id)
    requires Known(s) && Known(s1) && Later(c, s, s1, gone) && Later(c, s1, r, gone')
    requires id in s.elems && Core(s.elems[id].slot).Value? && s.elems[id].key !in gone
    requires !Dead(c, r, s.elems[id])
    ensures id in s1.elems && Core(s1.elems[id].slot) == Core(s.elems[id].slot) && Follows(s.elems[id], s1.elems[id])
    ensures Live(c, s1, id)
  {
    assert KnownContent(s, Core(s.elems[id].slot));
    assert KnownContent(s1, Core(s.elems[id].slot));
    if Dead(c, s1, s.elems[id]) {
      DeadRemains(c, s1, r, gone', s.elems[id], s.elems[id]);
    }
  }

  /** While somebody keeps value `v` of key `k` alive, `k` is not expired on purpose and its age limit is not reached,
      every request for `k` in any run returns `v` without creating, and the element stays in the cache. */
  lemma {:induction false} PointerStable(c: Config, s: State, steps: seq<Step>, id: Id, v: Ptr)
    requires Valid(c) && Inv(c, s) && Runs(c, s, steps)
    requires id in s.elems && Core(s.elems[id].slot) == Value(v) && s.elems[id].key !in GoneIn(steps)
    requires var r := After(c, s, steps); Alive(r, v) && !MaxAged(c, r, s.elems[id])
    ensures Serves(c, s, steps, s.elems[id].key, {Returned(v)})
    ensures var r := After(c, s, steps);
      id in r.elems && Core(r.elems[id].slot) == Value(v) && Follows(s.elems[id], r.elems[id])
    decreases |steps|
  {
    hide Later, Locks, Unique, Wf, Next, Enabled, Bounded, Live, Follows;
    var r := After(c, s, steps);
    assert !Dead(c, r, s.elems[id]) by { assert Known(r); }
    hide Alive, Known, Dead;
    if steps != [] {
      var s1 := Next(c, s, steps[0]).s;
      ValueStays(c, s, s1, r, Gone(steps[0]), GoneIn(steps[1..]), id);
      StepServes(c, s, steps[0], id);
      SameKey(s.elems[id], s1.elems[id]);
      PointerStable(c, s1, steps[1..], id, v);
      FollowsValue(s.elems[id], s1.elems[id], r.elems[id]);
    } else {
      FollowsValue(s.elems[id], s.elems[id], s.elems[id]);
    }
  }

  lemma SameKey(e: Elem, e': Elem)
    requires Follows(e, e')
    ensures e'.key == e.key && e'.maxAge == e.maxAge
  {
  }

  lemma FollowsValue(e: Elem, e': Elem, e'': Elem)
    requires e == e' == e'' || (Follows(e, e') && Follows(e', e'') && Core(e''.slot) == Core(e.slot))
    ensures Follows(e, e'')
  {
  }

  // ----- the same across the end of an asynchronous creation

  /** Element `id` of key `k` holds `v`, or is pending for `f` and not marked. */
  ghost predicate Bears(s: State, id: Id, k: Key, f: Fut, v: Ptr) {
    && id in s.elems && s.elems[id].key == k
    && (Core(s.elems[id].slot) == Value(v) || (Core(s.elems[id].slot) == Future(f) && !Marked(s.elems[id].slot)))
  }

  /** At the end `r` of a run, the deadline of element `e` has not passed, future `f` is open or was settled to `v`, and
      `v` is alive from when it exists. */
  ghost predicate Sustains(c: Config, r: State, e: Elem, f: Fut, v: Ptr) {
    && !MaxAged(c, r, e)
    && (Core(e.slot).Value? || Settled(r, f) ==> Alive(r, v))
    && (Core(e.slot).Future? && Settled(r, f) ==> r.futs[f].value == Done(v))
  }

  /** One step with a pending, unmarked element that is not past its age limit: it stays so, unless the step is its
      creator's return, which installs the outcome. */
  lemma PendingStep(c: Config, s: State, step: Step, id: Id, k: Key, f: Fut)
    requires Valid(c) && Inv(c, s) && Enabled(c, s, step) && k !in Gone(step)
    requires id in s.elems && s.elems[id].key == k && Core(s.elems[id].slot) == Future(f) && !Marked(s.elems[id].slot)
    requires !MaxAged(c, Next(c, s, step).s, s.elems[id])
    ensures var r := Next(c, s, step).s;
      && id in r.elems && Follows(s.elems[id], r.elems[id])
      && (|| (Core(r.elems[id].slot) == Future(f) && !Marked(r.elems[id].slot) && Live(c, r, id))
          || (step.Finish? && Settled(s, f) &&
              Core(r.elems[id].slot) == Core(Resolved(s.elems[id].slot, s.futs[f].value))))
  {
    hide Wf, Known, Unique, Locks, Home, MaxAged, Next, Later, Enabled;
    var t := CreatorOf(c, s, Next(c, s, step).s, Gone(step), id);
    if step == Finish(t) {
      CreatorReturns(c, s, t, id);
    } else {
      CreatorWaits(c, s, step, t, id);
    }
  }

  lemma CreatorReturns(c: Config, s: State, t: Tid, id: Id)
    requires Valid(c) && Inv(c, s) && Enabled(c, s, Finish(t)) && Creates(s, t, id)
    ensures var r := Next(c, s, Finish(t)).s; var f := s.waiters[t].fut;
      && id in s.elems && s.elems[id].slot.Pending? && s.elems[id].slot.fut == f && Settled(s, f)
      && id in r.elems && Follows(s.elems[id], r.elems[id])
      && Core(r.elems[id].slot) == Core(Resolved(s.elems[id].slot, s.futs[f].value))
  {
    hide Wf, Known, Unique, Home, MaxAged, Later, Operations.Finish;
    CreatorsElement(c, s, t, id);
    hide Locks;
    FinishInstalls(c, s, t);
  }

  lemma CreatorWaits(c: Config, s: State, step: Step, t: Tid, id: Id)
    requires Valid(c) && Inv(c, s) && Enabled(c, s, step) && Creates(s, t, id) && step != Finish(t)
    requires id in s.elems && s.elems[id].slot.Pending? && s.elems[id].key !in Gone(step) && !Marked(s.elems[id].slot)
    requires !MaxAged(c, Next(c, s, step).s, s.elems[id])
    ensures var r := Next(c, s, step).s;
      && id in r.elems && Follows(s.elems[id], r.elems[id]) && Live(c, r, id)
      && Core(r.elems[id].slot) == Core(s.elems[id].slot) && !Marked(r.elems[id].slot)
  {
    hide Wf, Known, Unique, Locks, Home, Next, Later;
    var r := Next(c, s, step).s;
    CreatorsCreate(c, s, t);
    WaiterKept(c, s, step, t);
    CreatorsCreate(c, r, t);
    KeepsIdentity(c, s, r, Gone(step), id);
    StillUnmarked(c, s, r, Gone(step), id);
    SameKey(s.elems[id], r.elems[id]);
  }

  /** A pending element that is not past its age limit has a creator. */
  lemma CreatorOf(c: Config, s: State, r: State, gone: set<Key>, id: Id) returns (t: Tid)
    requires Locks(c, s) && id in s.elems && s.elems[id].slot.Pending?
    requires Later(c, s, r, gone) && !MaxAged(c, r, s.elems[id])
    ensures Creates(s, t, id)
  {
    t :| Creates(s, t, id);
  }

  lemma StillUnmarked(c: Config, s: State, r: State, gone: set<Key>, id: Id)
    requires id in s.elems && id in r.elems && s.elems[id].key !in gone && r.elems[id].slot.Pending?
    ensures Later(c, s, r, gone) && !Marked(s.elems[id].slot) ==> !Marked(r.elems[id].slot)
  {
  }

  /** From a resolved or from a pending element, across the creator's return: every request for the key in any run is
      answered by the one future or by the one pointer that it yields, and none creates. */
  lemma {:induction false} AsyncStable(c: Config, s: State, steps: seq<Step>, id: Id, k: Key, f: Fut, v: Ptr)
    requires Valid(c) && Inv(c, s) && Runs(c, s, steps)
    requires Bears(s, id, k, f, v) && k !in GoneIn(steps)
    requires Sustains(c, After(c, s, steps), s.elems[id], f, v)
    ensures Serves(c, s, steps, k, {Waiting(f), Returned(v)}) && Bears(After(c, s, steps), id, k, f, v)
    decreases |steps|
  {
    hide Later, Locks, Unique, Wf, Next, Enabled, Bounded, Live, Known, Alive;
    var r := After(c, s, steps);
    if Core(s.elems[id].slot) == Value(v) {
      PointerStable(c, s, steps, id, v);
      ServesMore(c, s, steps, k, {Returned(v)}, {Waiting(f), Returned(v)});
    } else if steps != [] {
      var s1 := Next(c, s, steps[0]).s;
      AgeBefore(c, s1, r, s.elems[id], GoneIn(steps[1..]));
      PendingStep(c, s, steps[0], id, k, f);
      if Core(s1.elems[id].slot) == Future(f) {
        StepServes(c, s, steps[0], id);
      } else {
        FutureKept(c, s, steps[0], f);
        FutureOver(c, s1, steps[1..], f);
      }
      AsyncStable(c, s1, steps[1..], id, k, f, v);
    }
  }

  lemma AgeBefore(c: Config, s: State, r: State, e: Elem, gone: set<Key>)
    ensures Later(c, s, r, gone) && !MaxAged(c, r, e) ==> !MaxAged(c, s, e)
  {
  }

  lemma {:induction false} FutureOver(c: Config, s: State, steps: seq<Step>, f: Fut)
    requires Valid(c) && Inv(c, s) && Runs(c, s, steps) && Settled(s, f)
    ensures var r := After(c, s, steps); f in r.futs && r.futs[f] == s.futs[f]
    decreases |steps|
  {
    hide Later, Locks, Unique, Wf, Next, Enabled, Known;
    if steps != [] {
      FutureKept(c, s, steps[0], f);
      FutureOver(c, Next(c, s, steps[0]).s, steps[1..], f);
    }
  }

  // ----- where stability starts

  /** What an answer of `get` rests on: a pointer is the content of an element of the key and the caller holds it; a
      future is that of a pending element of the key, which is unmarked if this call created it, and the caller waits for
      it, as its creator or as one that joined. The caller gets null exactly when it created and was too slow. */
  lemma GetEstablishes(c: Config, s: State, t: Tid, k: Key, made: Made)
    requires Valid(c) && Inv(c, s) && t !in s.waiters
    ensures var r := Operations.Get(c, s, t, k, made);
      && (r.answer == Returned(Null) <==> Find(c, s, k).Miss? && !Asked(c, s, k, made).Throws? && Slow(c, s, k))
      && (r.answer.Returned? && r.answer.v != Null ==> r.answer.v in r.s.held)
      && (r.answer.Waiting? || (r.answer.Returned? && r.answer.v != Null) ==> exists id ::
            id in r.s.elems && r.s.elems[id].key == k && r.answer == Hands(Core(r.s.elems[id].slot))
            && (r.created ==> !Marked(r.s.elems[id].slot)))
      && (r.answer.Waiting? ==> NowWaits(Step.Get(t, k, made), r, r.answer.f))
  {
    hide Wf, Later, Tends, Unique, Locks, Known, Find, Create, Serve, FinishNow, ScanOk, Effective, Slow;
    var f := Find(c, s, k);
    GetKeeps(c, s, t, k, made);
    GetWaits(c, s, t, k, made);
    if f.Hit? {
      HitEstablishes(c, s, k, f);
    } else if !Asked(c, s, k, made).Throws? {
      MissMakes(c, s, t, k, made);
    }
  }

  lemma HitEstablishes(c: Config, s: State, k: Key, f: Found)
    requires Inv(c, s) && ScanOk(c, s, k, f) && f.Hit?
    ensures f.got != Nothing && f.got != Value(Null)
    ensures var r := Serve(c, f.s, f.id);
      && f.id in r.elems && r.elems[f.id].key == k && Core(r.elems[f.id].slot) == f.got
      && Pins(f.got) <= r.held
      && (f.got.Value? ==> f.got.v in r.held)
  {
    hide Wf, Tends, OnHit;
    ServeTends(c, f.s, f.id);
    ServedUnchanged(c, f.s, Serve(c, f.s, f.id), f.id);
  }

  /** A creation hands out what was created if and only if it took no longer than the age limit. */
  lemma HandedOutIffQuick(c: Config, s: State, t: Tid, k: Key, made: Made)
    requires Valid(c) && Inv(c, s) && t !in s.waiters
    requires Find(c, s, k).Miss? && !Asked(c, s, k, made).Throws?
    ensures Operations.Get(c, s, t, k, made).answer == Hands(Core(FirstSlot(Asked(c, s, k, made)))) <==> !Slow(c, s, k)
  {
    hide Wf, Locks, Unique, Known, Find, Operations.Get, Slow;
    MissMakes(c, s, t, k, made);
  }

  /** Some element of key `k` has content `a`, is unmarked, and is sustained up to the state `r`. */
  ghost predicate Lasts(c: Config, s: State, r: State, k: Key, a: Answer, f: Fut, v: Ptr) {
    exists id :: id in s.elems && s.elems[id].key == k && Hands(Core(s.elems[id].slot)) == a
      && !Marked(s.elems[id].slot) && Sustains(c, r, s.elems[id], f, v)
  }

  /** The promise to a caller, be it one that found, joined or created: after `get` has answered with pointer `v`, every
      request for the key in any run returns `v`; after it has answered with future `f`, every request is answered by
      `f` or by the pointer that `f` yields, the caller's own return included. It holds as long as the deadline of the
      element that the answer came from has not passed, its key is not expired, and somebody keeps the pointer. */
  lemma GetThenStable(c: Config, s: State, t: Tid, k: Key, made: Made, steps: seq<Step>, f: Fut, v: Ptr)
    requires Valid(c) && Inv(c, s) && t !in s.waiters && k !in GoneIn(steps)
    requires var r := Operations.Get(c, s, t, k, made);
      && (r.answer == Returned(v) || r.answer == Waiting(f))
      && (GetKeeps(c, s, t, k, made); Runs(c, r.s, steps))
      && Lasts(c, r.s, After(c, r.s, steps), k, r.answer, f, v)
    ensures (GetKeeps(c, s, t, k, made); var r := Operations.Get(c, s, t, k, made);
      Serves(c, r.s, steps, k, if r.answer == Returned(v) then {Returned(v)} else {Waiting(f), Returned(v)}))
  {
    hide Wf, Known, Locks, Unique, Later, Operations.Get, Alive, MaxAged, Serves, Runs, After, GoneIn;
    GetKeeps(c, s, t, k, made);
    var r := Operations.Get(c, s, t, k, made);
    var id :| id in r.s.elems && r.s.elems[id].key == k && Hands(Core(r.s.elems[id].slot)) == r.answer
      && !Marked(r.s.elems[id].slot) && Sustains(c, After(c, r.s, steps), r.s.elems[id], f, v);
    if r.answer == Returned(v) {
      PointerStable(c, r.s, steps, id, v);
    } else {
      AsyncStable(c, r.s, steps, id, k, f, v);
    }
  }

  // ----- where stability ends

  /** When no element of the key is alive, the lookup misses and the create function is asked. */
  lemma DeadKeyMisses(c: Config, s: State, k: Key)
    requires Wf(c, s) && AllDead(c, s, k)
    ensures Find(c, s, k).Miss?
  {
    hide Wf, Find, Tends, Dead;
    StillDead(c, s, Find(c, s, k).s, k);
  }

  /** Holding the pointer alone does not make `get` return it: the deadline decides. With `id` the one element of the
      key that is not dead for another reason, `get` returns the pointer if the deadline has not passed when it is
      done, and does not find it if the deadline had passed when it was called. */
  lemma ServedUntilAged(c: Config, s: State, t: Tid, k: Key, made: Made, id: Id, v: Ptr)
    requires Valid(c) && Inv(c, s) && t !in s.waiters
    requires id in s.elems && s.elems[id].key == k && Core(s.elems[id].slot) == Value(v)
    requires forall i :: i in s.elems && i != id && s.elems[i].key == k ==> Dead(c, s, s.elems[i])
    ensures var r := Operations.Get(c, s, t, k, made);
      && (Alive(r.s, v) && !MaxAged(c, r.s, s.elems[id]) ==> !r.created && r.answer == Returned(v))
      && (MaxAged(c, s, s.elems[id]) ==> r.created || r.answer == Threw)
  {
    hide Wf, Locks, Unique, Find, Operations.Get, Alive;
    GetKeeps(c, s, t, k, made);
    var r := Operations.Get(c, s, t, k, made).s;
    KnownAlive(r, v);
    if MaxAged(c, s, s.elems[id]) {
      DeadKeyMisses(c, s, k);
      MissCreates(c, s, t, k, made);
    }
    if Alive(r, v) && !MaxAged(c, r, s.elems[id]) {
      assert Live(c, r, id);
      GetServesLive(c, s, t, k, made, id);
    }
  }

  lemma KnownAlive(s: State, v: Ptr)
    ensures Known(s) && Alive(s, v) ==> v != Null
  {
  }

  lemma MissCreates(c: Config, s: State, t: Tid, k: Key, made: Made)
    requires Valid(c) && Inv(c, s) && t !in s.waiters
    ensures var r := Operations.Get(c, s, t, k, made); Find(c, s, k).Miss? ==> r.created || r.answer == Threw
  {
    hide Wf, Locks, Unique, Known, Find, Create, FinishNow, Effective;
  }

  // ----- pending creations

  /** From the moment a creator leaves the mutex to the moment it comes back to resolve its element, no run of the
      other threads unlinks, erases, moves out of its bucket or unlocks that element, and every request for its key
      joins the one future, as long as the age limit is not reached. */
  lemma {:induction false} PendingSurvives(c: Config, s: State, steps: seq<Step>, t: Tid, id: Id, k: Key, f: Fut)
    requires Valid(c) && Inv(c, s) && Runs(c, s, steps) && Finish(t) !in steps
    requires Creating(c, s, t, id, k, f)
    ensures Creating(c, After(c, s, steps), t, id, k, f)
    ensures !MaxAged(c, After(c, s, steps), s.elems[id]) ==> Serves(c, s, steps, k, {Waiting(f)})
    decreases |steps|
  {
    hide Later, Locks, Unique, Wf, Next, Enabled, Bounded, Known, Home, Creating;
    if steps != [] {
      var s1 := Next(c, s, steps[0]).s;
      CreatingNext(c, s, steps[0], t, id, k, f);
      PendingSurvives(c, s1, steps[1..], t, id, k, f);
      var r := After(c, s1, steps[1..]);
      AgeOf(c, s, s1, r, Gone(steps[0]), GoneIn(steps[1..]), t, id, k, f);
      CreatingElem(c, s, t, id, k, f);
      if !MaxAged(c, r, s.elems[id]) {
        StepServes(c, s, steps[0], id);
      }
    }
  }

  lemma CreatingElem(c: Config, s: State, t: Tid, id: Id, k: Key, f: Fut)
    requires Creating(c, s, t, id, k, f)
    ensures id in s.elems && s.elems[id].key == k && Core(s.elems[id].slot) == Future(f)
  {
  }

  lemma CreatingNext(c: Config, s: State, step: Step, t: Tid, id: Id, k: Key, f: Fut)
    requires Valid(c) && Inv(c, s) && Enabled(c, s, step) && step != Finish(t)
    requires Creating(c, s, t, id, k, f)
    ensures Creating(c, Next(c, s, step).s, t, id, k, f)
    ensures Follows(s.elems[id], Next(c, s, step).s.elems[id])
  {
    hide Locks, Unique, Wf, Next, Home, Later, Known;
    WaiterKept(c, s, step, t);
    var s1 := Next(c, s, step).s;
    CreatorsCreate(c, s1, t);
    KeepsIdentity(c, s, s1, Gone(step), id);
  }

  lemma AgeOf(c: Config, s: State, s1: State, r: State, gone: set<Key>, gone': set<Key>, t: Tid, id: Id, k: Key, f: Fut)
    requires Creating(c, s, t, id, k, f) && Creating(c, s1, t, id, k, f) && Follows(s.elems[id], s1.elems[id])
    ensures Later(c, s, s1, gone) && Later(c, s1, r, gone') && !MaxAged(c, r, s.elems[id]) ==>
      !MaxAged(c, r, s1.elems[id]) && Live(c, s1, id)
  {
  }

  // ----- one outcome for all

  /** Thread `t` waits for future `f`, whose outcome is `o`. */
  ghost predicate Awaits(s: State, t: Tid, f: Fut, o: Outcome) {
    t in s.waiters && s.waiters[t].fut == f && Settled(s, f) && s.futs[f].value == o
  }

  /** However many threads wait for one creation, and however long each of them takes to come back, they all get the
      same outcome: the creator and those that joined alike. */
  lemma {:induction false} OneOutcome(c: Config, s: State, steps: seq<Step>, t: Tid, f: Fut, o: Outcome)
    requires Valid(c) && Inv(c, s) && Runs(c, s, steps)
    requires Finish(t) !in steps && Wake(t) !in steps
    requires Awaits(s, t, f, o)
    ensures var r := After(c, s, steps);
      && Awaits(r, t, f, o) && r.waiters[t] == s.waiters[t]
      && (r.waiters[t].Join? ==>
            Operations.Wake(r, t).answer == AnswerOf(o) && ValueOf(o) <= Operations.Wake(r, t).s.held)
      && (r.waiters[t].Creator? ==> Operations.Finish(c, r, t).answer == AnswerOf(o))
    decreases |steps|
  {
    hide Later, Locks, Unique, Wf, Next, Enabled, Bounded, Known, MaybeRehash, Tends;
    if steps != [] {
      FutureKept(c, s, steps[0], f);
      WaiterKept(c, s, steps[0], t);
      OneOutcome(c, Next(c, s, steps[0]).s, steps[1..], t, f, o);
    }
  }

  lemma {:induction false} WaitsThrough(c: Config, s: State, steps: seq<Step>, t: Tid)
    requires Valid(c) && Inv(c, s) && Runs(c, s, steps)
    requires t in s.waiters && Finish(t) !in steps && Wake(t) !in steps
    ensures var r := After(c, s, steps); t in r.waiters && r.waiters[t] == s.waiters[t]
    decreases |steps|
  {
    hide Later, Locks, Unique, Wf, Next, Enabled, Known;
    if steps != [] {
      WaiterKept(c, s, steps[0], t);
      WaitsThrough(c, Next(c, s, steps[0]).s, steps[1..], t);
    }
  }

  /** Thread `t` comes back from its future: as the creator through the cache, else directly. */
  ghost function Back(c: Config, s: State, t: Tid): Reply
    requires Valid(c) && Inv(c, s) && t in s.waiters && Settled(s, s.waiters[t].fut)
  {
    if s.waiters[t].Creator? then Operations.Finish(c, s, t) else Operations.Wake(s, t)
  }

  /** From the call to its end: a `get` or `get_if_present` that has answered with a future, in whatever run the other
      threads go on, can come back as soon as the future is settled, then gets exactly its outcome, and holds the
      pointer. While it waits it keeps the pointer alive. It comes back through the cache if and only if it created.
      */
  lemma CallOutcome(c: Config, s: State, step: Step, steps: seq<Step>, f: Fut)
    requires Valid(c) && Inv(c, s) && Enabled(c, s, step) && (step.Get? || step.Peek?)
    requires Next(c, s, step).answer == Waiting(f) && Runs(c, Next(c, s, step).s, steps)
    requires Finish(step.t) !in steps && Wake(step.t) !in steps
    requires Settled(After(c, Next(c, s, step).s, steps), f)
    ensures var r, e := Next(c, s, step), After(c, Next(c, s, step).s, steps);
      var t, o := step.t, e.futs[f].value;
      && Awaits(e, t, f, o)
      && (forall v :: v in ValueOf(o) ==> Alive(e, v))
      && (e.waiters[t].Creator? <==> r.created)
      && Back(c, e, t).answer == AnswerOf(o) && ValueOf(o) <= Back(c, e, t).s.held && t !in Back(c, e, t).s.waiters
  {
    hide Later, Locks, Unique, Wf, Next, Known, After, Runs, MaybeRehash;
    var r := Next(c, s, step);
    CallWaits(c, s, step);
    WaitsThrough(c, r.s, steps, step.t);
    var e := After(c, r.s, steps);
    forall v | v in ValueOf(e.futs[f].value) ensures Alive(e, v) {
      assert Completed(e.futs, e.waiters[step.t].fut, v);
    }
    if r.created {
      FinishInstalls(c, e, step.t);
    }
  }
}
