/** The cache as a partial map from keys to live contents, and its operations as operations on that map. */
module Refinement {
  import opened ElementState
  import opened CacheState
  import opened Maintenance
  import opened Lookup
  import opened Evolution
  import opened Operations
  import opened Sections
  import opened Protocol
  import opened Steps
  import opened Service

  /** Key `k` is bound to content `x`. */
  ghost predicate Binds(c: Config, s: State, k: Key, x: Content) {
    exists id :: Live(c, s, id) && s.elems[id].key == k && Core(s.elems[id].slot) == x
  }

  lemma BindsOne(c: Config, s: State, k: Key, x: Content, y: Content)
    requires Unique(c, s) && Binds(c, s, k, x) && Binds(c, s, k, y)
    ensures x == y
  {
  }

  lemma UnboundIsDead(c: Config, s: State, k: Key)
    ensures AllDead(c, s, k) <==> forall x :: !Binds(c, s, k, x)
  {
    if forall x :: !Binds(c, s, k, x) {
      forall id | id in s.elems && s.elems[id].key == k ensures Dead(c, s, s.elems[id]) {
        if Live(c, s, id) {
          assert Binds(c, s, k, Core(s.elems[id].slot));
        }
      }
    }
  }

  /** Maintenance (cleanup during a walk, eviction, full maintenance, rehashing) adds no binding and loses only those
      whose content died. */
  lemma MaintenanceKeepsMap(c: Config, s: State, s': State, k: Key, x: Content)
    requires Tends(c, s, s')
    ensures Binds(c, s', k, x) <==>
      exists id :: Live(c, s, id) && s.elems[id].key == k && Core(s.elems[id].slot) == x && !Dead(c, s', s.elems[id])
  {
    if Binds(c, s', k, x) {
      var id :| Live(c, s', id) && s'.elems[id].key == k && Core(s'.elems[id].slot) == x;
      assert SameElem(s.elems[id], s'.elems[id]);
      if Dead(c, s, s.elems[id]) {
        DeadStays(c, s, s', s.elems[id], s'.elems[id]);
      }
      assert Live(c, s, id);
    }
    if id :| Live(c, s, id) && s.elems[id].key == k && Core(s.elems[id].slot) == x && !Dead(c, s', s.elems[id]) {
      assert SameElem(s.elems[id], s'.elems[id]);
      assert Live(c, s', id);
    }
  }

  /** A walk that hits found a binding of the state it started in; a walk that misses ends with the key unbound. */
  lemma ScanRefines(c: Config, s: State, k: Key, r: Found)
    requires ScanOk(c, s, k, r)
    ensures r.Hit? ==> Binds(c, s, k, r.got) && Binds(c, r.s, k, r.got)
    ensures r.Miss? ==> forall x :: !Binds(c, r.s, k, x)
  {
    hide Wf;
    if r.Hit? {
      assert Live(c, r.s, r.id);
      MaintenanceKeepsMap(c, s, r.s, k, r.got);
    } else {
      UnboundIsDead(c, r.s, k);
    }
  }

  /** `get_if_present` is the map lookup. Bindings can only vanish while it walks, so it is stated with the binding
      before for an answer and with its absence afterwards for no answer. */
  lemma PeekRefines(c: Config, s: State, t: Tid, k: Key)
    requires Inv(c, s) && t !in s.waiters
    ensures var r := Operations.Peek(c, s, t, k);
      && r.s.elems == s.elems && r.s.buckets == s.buckets && r.s.queue == s.queue
      && (r.answer.Absent? ==> forall x :: !Binds(c, r.s, k, x))
      && (!r.answer.Absent? ==> exists x :: r.answer == Hands(x) && Binds(c, s, k, x))
      && (r.answer.Returned? ==> r.answer.v in r.s.held)
  {
    hide Wf, Tends, Known, Locks, Unique, PeekScan, ScanOk, Binds;
    var f := PeekScan(c, s, BucketOf(c, s, k), 0, k);
    ScanRefines(c, s, k, f);
    if f.Hit? {
      BoundContent(c, f.s, k, f.got);
    }
  }

  lemma BoundContent(c: Config, s: State, k: Key, x: Content)
    requires Binds(c, s, k, x)
    ensures x != Nothing && (x.Value? ==> x.v != Null)
  {
  }

  /** When nothing happens outside during the walk, `get_if_present` is exactly the map lookup. */
  lemma PeekExact(c: Config, s: State, t: Tid, k: Key, x: Content)
    requires Inv(c, s) && t !in s.waiters && Quiet(c) && x != Nothing
    ensures Operations.Peek(c, s, t, k).answer == Hands(x) <==> Binds(c, s, k, x)
  {
    hide Wf, Tends, Known, Locks, PeekScan, ScanOk, Binds, Unique;
    var f := PeekScan(c, s, BucketOf(c, s, k), 0, k);
    ScanRefines(c, s, k, f);
    QuietPeek(c, s, BucketOf(c, s, k), 0, k);
    QuietBinds(c, s, f.s, k, x);
    if f.Hit? && Binds(c, s, k, x) {
      BindsOne(c, s, k, x, f.got);
    }
    if f.Hit? {
      BoundContent(c, f.s, k, f.got);
    }
  }

  lemma QuietBinds(c: Config, s: State, s': State, k: Key, x: Content)
    requires s' == s.(tick := s'.tick)
    ensures Binds(c, s, k, x) <==> Binds(c, s', k, x)
  {
    forall v ensures Alive(s, v) <==> Alive(s', v) {}
    hide Alive;
    forall id ensures Live(c, s, id) <==> Live(c, s', id) {}
  }

  lemma {:induction false} QuietPeek(c: Config, s: State, b: nat, i: nat, k: Key)
    requires Quiet(c) && Wf(c, s) && b < |s.buckets| && b == Home(c, |s.buckets|, k)
    requires i <= |s.buckets[b]| && DeadBefore(c, s, b, i, k)
    ensures var r := PeekScan(c, s, b, i, k); r.s == s.(tick := r.s.tick)
    decreases |s.buckets[b]| - i
  {
    hide Wf, Tends, Home, Observe, DeadBefore, ScanOk;
    if i < |s.buckets[b]| {
      ChainWf(c, s, b);
      var id := s.buckets[b][i];
      if s.elems[id].key != k {
        DeadBeforeSkip(c, s, s, b, i, k);
        QuietPeek(c, s, b, i + 1, k);
      } else {
        var s1 := Observe(c, s);
        QuietObserve(c, s);
        ExpiredIsDead(c, s1, id);
        if IsExpired(c, s1, s1.elems[id]) {
          DeadBeforeSkip(c, s, s1, b, i, k);
          QuietPeek(c, s1, b, i + 1, k);
        }
      }
    }
  }

  /** `get` is lookup-or-insert: without a creation it answers with the binding it found; it asks the create function
      only at a moment when the key is unbound, and hands out what that yields unless it took too long. */
  lemma GetRefines(c: Config, s: State, t: Tid, k: Key, made: Made)
    requires Valid(c) && Inv(c, s) && t !in s.waiters
    ensures var r := Operations.Get(c, s, t, k, made);
      && (Find(c, s, k).Hit? ==> !r.created && exists x :: r.answer == Hands(x) && Binds(c, s, k, x))
      && (Find(c, s, k).Miss? ==>
           && (r.created <==> !Asked(c, s, k, made).Throws?)
           && (!r.created ==> r.answer == Threw && r.s.elems == Find(c, s, k).s.elems)
           && (!r.created ==> r.s.queue == Find(c, s, k).s.queue && r.s.buckets == Find(c, s, k).s.buckets)
           && (r.created ==> r.answer == if Slow(c, s, k) then Returned(Null) else Hands(Core(FirstSlot(made))))
           && forall x :: !Binds(c, Find(c, s, k).s, k, x))
  {
    hide Wf, Tends, Known, Locks, Unique, Later, Find, ScanOk, Binds, Serve, Create, FinishNow, Admissible, Late;
    GetKeeps(c, s, t, k, made);
    ScanRefines(c, s, k, Find(c, s, k));
  }

  /** Other keys: whatever step is taken, a value bound before stays bound unless it died, and nothing becomes
      bound except through the element that the step creates or resolves. */
  lemma OthersKept(c: Config, s: State, step: Step, k: Key, v: Ptr)
    requires Valid(c) && Inv(c, s) && Enabled(c, s, step) && k !in Gone(step)
    requires Binds(c, s, k, Value(v))
    ensures var r := Next(c, s, step).s;
      || Binds(c, r, k, Value(v))
      || !Alive(r, v)
      || exists id :: Live(c, s, id) && s.elems[id].key == k && MaxAged(c, r, s.elems[id])
  {
    hide Wf, Known, Locks, Unique, Next;
    var r := Next(c, s, step).s;
    var id :| Live(c, s, id) && s.elems[id].key == k && Core(s.elems[id].slot) == Value(v);
    if !Dead(c, r, s.elems[id]) {
      assert Follows(s.elems[id], r.elems[id]) by { KeepsIdentity(c, s, r, Gone(step), id) by { hide Later; } }
      assert Live(c, r, id);
    }
  }

  lemma NothingAppears(c: Config, s: State, step: Step, id: Id)
    requires Valid(c) && Inv(c, s) && Enabled(c, s, step)
    requires Live(c, Next(c, s, step).s, id) && id < s.nextId
    ensures var r := Next(c, s, step).s;
      && Live(c, s, id) && r.elems[id].key == s.elems[id].key
      && (Core(r.elems[id].slot) == Core(s.elems[id].slot) || Core(s.elems[id].slot).Future?)
  {
    hide Wf, Locks, Unique, Next;
    var r := Next(c, s, step).s;
    LiveBefore(c, s, r, Gone(step), id) by { hide Known; }
  }

  /** Some element of key `k` is pending for `f` and will be empty once it resolves. */
  ghost predicate Flagged(s: State, k: Key, f: Fut) {
    exists id ::
      && id in s.elems && s.elems[id].key == k
      && s.elems[id].slot.Pending? && s.elems[id].slot.fut == f && s.elems[id].slot.expired
  }

  /** `expire` removes the binding of the key when the content is resolved. A pending element is only flagged: it
      stays bound to its future until that resolves. If `expire` reports that it found nothing, then all elements of the
      key that were there before have died by themselves, with the content that they had. */
  lemma ForgetRefines(c: Config, s: State, k: Key)
    requires Inv(c, s)
    ensures var r := Operations.Forget(c, s, k);
      && (!r.found ==> forall x :: !Binds(c, r.s, k, x))
      && (!r.found ==> forall id :: id in s.elems && s.elems[id].key == k ==> Dead(c, r.s, s.elems[id]))
      && (r.found ==> exists x ::
            && Binds(c, s, k, x)
            && (x.Value? ==> forall y :: !Binds(c, r.s, k, y)) && (x.Future? ==> Flagged(r.s, k, x.f)))
  {
    hide Wf, Tends, Known, Locks, Unique, Scan, ScanOk, Strike, Binds;
    var f := Scan(c, s, BucketOf(c, s, k), 0, k, false);
    ScanRefines(c, s, k, f);
    ScanKnown(c, s, k, f);
    LocksTends(c, s, f.s);
    MissedDead(c, s, k, f);
    if f.Hit? {
      FoundElement(c, s, k, f);
      BoundContent(c, s, k, f.got);
      if f.got.Value? {
        ForgetValue(c, s, k, f);
      } else {
        ForgetFuture(c, s, k, f);
      }
    }
  }

  lemma MissedDead(c: Config, s: State, k: Key, f: Found)
    requires ScanOk(c, s, k, f)
    ensures f.Miss? ==> forall id :: id in s.elems && s.elems[id].key == k ==> Dead(c, f.s, s.elems[id])
  {
    hide Wf, Alive;
    if f.Miss? {
      forall id | id in s.elems && s.elems[id].key == k ensures Dead(c, f.s, s.elems[id]) {
        if id in f.s.elems {
          assert SameElem(s.elems[id], f.s.elems[id]);
        }
      }
    }
  }

  lemma FoundElement(c: Config, s: State, k: Key, f: Found)
    requires ScanOk(c, s, k, f) && f.Hit?
    ensures Wf(c, f.s) && f.id in f.s.elems && f.s.elems[f.id].key == k
    ensures Core(f.s.elems[f.id].slot) == f.got && Tends(c, s, f.s)
  {
  }

  // ----- the result of `expire` in a quiet world

  /** No element is past its age limit. */
  ghost predicate Unaged(c: Config, s: State) {
    forall id :: id in s.elems ==> !MaxAged(c, s, s.elems[id])
  }

  /** The clock and the holders have stood still and, unless something was past its age limit, nothing has died. */
  ghost predicate Calm(c: Config, s: State, r: State) {
    && r.now == s.now && r.held == s.held
    && (Unaged(c, s) ==> Unaged(c, r) && forall v :: Alive(s, v) ==> Alive(r, v))
  }

  lemma ObserveCalm(c: Config, s: State)
    requires Quiet(c)
    ensures Calm(c, s, Observe(c, s))
  {
    QuietObserve(c, s);
    var r := Observe(c, s);
    forall v | Alive(s, v) ensures Alive(r, v) {
      hide Observe;
    }
  }

  /** An element that is dead and not past its age limit owns no value. */
  lemma EraseCalm(c: Config, s: State, id: Id)
    requires Wf(c, s) && id in s.elems && s.elems[id].useCount == 0 && Dead(c, s, s.elems[id])
    ensures Calm(c, s, Erase(c, s, id))
  {
    hide Wf, Tends;
    var r := Erase(c, s, id);
    if Unaged(c, s) {
      forall v | Alive(s, v) ensures Alive(r, v) {
        OwnerLives(s, id, v);
        if i :| i in s.elems && i != id && Holds(s.futs, s.elems[i].slot, v) {
          assert Holds(r.futs, r.elems[i].slot, v);
        }
      }
    }
  }

  lemma OwnerLives(s: State, id: Id, v: Ptr)
    ensures id in s.elems && Holds(s.futs, s.elems[id].slot, v) ==> Alive(s, v)
  {
  }

  lemma CalmTrans(c: Config, s: State, s': State, s'': State)
    ensures Calm(c, s, s') && Calm(c, s', s'') ==> Calm(c, s, s'')
  {
    hide Alive;
  }

  lemma CalmRefl(c: Config, s: State)
    ensures Calm(c, s, s)
  {
  }

  lemma SweepCalm(c: Config, s: State, id: Id)
    requires Quiet(c) && Wf(c, s) && id in s.elems
    ensures Calm(c, s, Sweep(c, s, id).s)
  {
    hide Wf, Tends, Observe, Home, Dead, Calm, Erase, Trims, Quiet, IsExpired;
    var s1 := Observe(c, s);
    ObserveCalm(c, s);
    ExpiredIsDead(c, s1, id);
    if IsExpired(c, s1, s1.elems[id]) && s1.elems[id].useCount == 0 {
      EraseCalm(c, s1, id);
      CalmTrans(c, s, s1, Erase(c, s1, id));
    }
  }

  lemma LookAtCalm(c: Config, s: State, id: Id, k: Key, recheck: bool)
    requires Quiet(c) && Wf(c, s) && id in s.elems
    ensures Calm(c, s, LookAt(c, s, id, k, recheck).s)
  {
    hide Wf, Tends, Trims, Sweep, Dead, Calm, Quiet, Observe, IsExpired;
    var r := Sweep(c, s, id);
    SweepCalm(c, s, id);
    ObserveCalm(c, r.s);
    CalmTrans(c, s, r.s, Observe(c, r.s));
  }

  lemma {:induction false} ScanCalm(c: Config, s: State, b: nat, i: nat, k: Key, recheck: bool)
    requires Quiet(c) && Wf(c, s) && b < |s.buckets| && b == Home(c, |s.buckets|, k)
    requires i <= |s.buckets[b]| && DeadBefore(c, s, b, i, k)
    ensures Calm(c, s, Scan(c, s, b, i, k, recheck).s)
    decreases |s.buckets[b]| - i
  {
    hide Wf, Tends, Trims, Home, LookAt, DeadBefore, FoundOk, Calm, Quiet;
    if i == |s.buckets[b]| {
      CalmRefl(c, s);
    } else {
      ChainWf(c, s, b);
      var id := s.buckets[b][i];
      var v := LookAt(c, s, id, k, recheck);
      VisitStays(c, s, b, i, k, v);
      VisitLeaves(c, s, b, i, k, v);
      LookAtCalm(c, s, id, k, recheck);
      if !v.Matches? {
        var j := if v.Stays? then i + 1 else i;
        ScanCalm(c, v.s, b, j, k, recheck);
        CalmTrans(c, s, v.s, Scan(c, v.s, b, j, k, recheck).s);
      }
    }
  }

  lemma SearchCalm(c: Config, s: State, k: Key, recheck: bool)
    requires Quiet(c) && Wf(c, s)
    ensures Calm(c, s, Sought(c, s, k, recheck).s)
  {
    hide Wf, Scan, Calm, Quiet, ScanOk;
    DeadBeforeNone(c, s, BucketOf(c, s, k), k);
    ScanCalm(c, s, BucketOf(c, s, k), 0, k, recheck);
  }

  /** When nothing happens outside and nothing is past its age limit, `expire` reports a success exactly for a bound
      key. */
  lemma ForgetExact(c: Config, s: State, k: Key)
    requires Inv(c, s) && Quiet(c) && Unaged(c, s)
    ensures Operations.Forget(c, s, k).found <==> exists x :: Binds(c, s, k, x)
  {
    hide Wf, Tends, Known, Locks, Unique, Scan, ScanOk, Strike, Unaged, Quiet, Alive;
    ForgetRefines(c, s, k);
    var r := Operations.Forget(c, s, k);
    if !r.found {
      SearchCalm(c, s, k, false);
      forall id | id in s.elems && s.elems[id].key == k ensures !Live(c, s, id) {
        DeadAlready(c, s, r.s, s.elems[id]);
      }
    }
  }

  lemma DeadAlready(c: Config, s: State, r: State, e: Elem)
    ensures Calm(c, s, r) && Unaged(c, s) && Dead(c, r, e) ==> Dead(c, s, e)
  {
  }

  lemma ForgetValue(c: Config, s: State, k: Key, f: Found)
    requires Inv(c, s) && ScanOk(c, s, k, f) && f.Hit? && f.got.Value? && Locks(c, f.s)
    ensures Wf(c, f.s) && f.id in f.s.elems && f.s.elems[f.id].useCount == 0
    ensures forall y :: !Binds(c, Strike(c, f.s, f.id), k, y)
  {
    hide Wf, Tends, Known, Locks, Strike, Binds;
    MaintainedUnique(c, s, f.s);
    var s1 := WithSlot(f.s, f.id, Expired(f.s.elems[f.id].slot));
    ForgetGuard(c, f.s, f.id);
    StruckDead(c, f.s, f.id);
    StillDead(c, s1, Strike(c, f.s, f.id), k);
    UnboundIsDead(c, Strike(c, f.s, f.id), k);
  }

  lemma StruckDead(c: Config, s: State, id: Id)
    requires Unique(c, s) && Live(c, s, id) && !s.elems[id].slot.Pending?
    ensures AllDead(c, WithSlot(s, id, Expired(s.elems[id].slot)), s.elems[id].key)
  {
    var r := WithSlot(s, id, Expired(s.elems[id].slot));
    forall v | Alive(r, v) ensures Alive(s, v) {}
    hide Alive;
    forall i | i in r.elems && r.elems[i].key == s.elems[id].key ensures Dead(c, r, r.elems[i]) {
      assert i == id || !Live(c, s, i);
    }
  }

  lemma ForgetFuture(c: Config, s: State, k: Key, f: Found)
    requires Inv(c, s) && ScanOk(c, s, k, f) && f.Hit? && f.got.Future? && Locks(c, f.s)
    ensures Wf(c, f.s) && f.id in f.s.elems && f.s.elems[f.id].useCount > 0
    ensures var r := Strike(c, f.s, f.id);
      && f.id in r.elems && r.elems[f.id].key == k
      && r.elems[f.id].slot == f.s.elems[f.id].slot.(expired := true) && r.elems[f.id].slot.fut == f.got.f
  {
    hide Wf, Tends, Known;
    ForgetGuard(c, f.s, f.id);
  }

  // ----- the end of a creation

  /** If the future fails, or `expire` was called for the key meanwhile, the key is unbound when the creator is done, so
      that the next `get` creates anew; otherwise the key is bound to the new value. */
  lemma FinishRefines(c: Config, s: State, t: Tid)
    requires Valid(c) && Inv(c, s) && t in s.waiters && s.waiters[t].Creator? && Settled(s, s.waiters[t].fut)
    requires s.waiters[t].id in s.elems && s.elems[s.waiters[t].id].slot.Pending?
    ensures var e := s.elems[s.waiters[t].id];
      var o := s.futs[s.waiters[t].fut].value;
      var r := Operations.Finish(c, s, t).s;
      && (!MaxAged(c, s, e) && (o.Failed? || e.slot.expired) ==> forall x :: !Binds(c, r, e.key, x))
      && (!MaxAged(c, r, e) && o.Done? && o.v != Null && !e.slot.expired ==> Binds(c, r, e.key, Value(o.v)))
  {
    hide Wf, Known, Locks, Later, Operations.Finish, Alive;
    FinishInstalls(c, s, t);
    FinishKeeps(c, s, t);
    var id := s.waiters[t].id;
    var o := s.futs[s.waiters[t].fut].value;
    var r := Operations.Finish(c, s, t).s;
    var e := s.elems[id];
    if o.Failed? || e.slot.expired {
      assert !MaxAged(c, s, e) ==> Live(c, s, id);
      forall i | !MaxAged(c, s, e) && i in r.elems && r.elems[i].key == e.key ensures Dead(c, r, r.elems[i]) {
        Survivor(c, s, r, i);
      }
      UnboundIsDead(c, r, e.key);
    } else if !MaxAged(c, r, e) && o.v != Null {
      HeldLives(r, o.v);
      assert Live(c, r, id);
    }
  }

  lemma HeldLives(s: State, v: Ptr)
    requires v in s.held
    ensures Alive(s, v)
  {
  }

  lemma Survivor(c: Config, s: State, r: State, id: Id)
    requires Known(s) && Later(c, s, r, {}) && r.nextId == s.nextId && Known(r) && id in r.elems
    ensures id in s.elems && r.elems[id].key == s.elems[id].key
    ensures Live(c, r, id) ==> Live(c, s, id)
  {
    if Live(c, r, id) {
      LiveBefore(c, s, r, {}, id);
    }
  }

  // ----- what `expire` does to the promise of stability

  lemma DeadKeyStep(c: Config, s: State, step: Step, k: Key)
    requires Valid(c) && Inv(c, s) && Enabled(c, s, step) && AllDead(c, s, k) && !(step.Get? && step.k == k)
    ensures AllDead(c, Next(c, s, step).s, k)
  {
    hide Wf, Locks, Unique, Next, Enabled, Dead;
    var r := Next(c, s, step).s;
    forall id | id in r.elems && r.elems[id].key == k ensures Dead(c, r, r.elems[id]) {
      StepKeys(c, s, step, id);
      DeadFollows(c, s, r, Gone(step), id);
    }
  }

  lemma DeadFollows(c: Config, s: State, r: State, gone: set<Key>, id: Id)
    requires Known(s) && id in s.elems && id in r.elems && Dead(c, s, s.elems[id])
    ensures Later(c, s, r, gone) ==> Dead(c, r, r.elems[id])
  {
    if Later(c, s, r, gone) {
      assert KnownContent(s, Core(s.elems[id].slot));
      DeadRemains(c, s, r, gone, s.elems[id], r.elems[id]);
    }
  }

  /** A key without a live element gets one through `get` only. */
  lemma {:induction false} UnboundStays(c: Config, s: State, steps: seq<Step>, k: Key)
    requires Valid(c) && Inv(c, s) && Runs(c, s, steps) && AllDead(c, s, k)
    requires forall i :: 0 <= i < |steps| ==> !(steps[i].Get? && steps[i].k == k)
    ensures AllDead(c, After(c, s, steps), k)
    decreases |steps|
  {
    hide Wf, Known, Locks, Unique, Later, Next, Enabled, AllDead;
    if steps != [] {
      DeadKeyStep(c, s, steps[0], k);
      UnboundStays(c, Next(c, s, steps[0]).s, steps[1..], k);
    }
  }

  lemma ForgetKills(c: Config, s: State, id: Id)
    requires Inv(c, s) && Live(c, s, id) && Core(s.elems[id].slot).Value?
    ensures AllDead(c, Operations.Forget(c, s, s.elems[id].key).s, s.elems[id].key)
  {
    hide Wf, Known, Locks, Operations.Forget;
    var k := s.elems[id].key;
    var r := Operations.Forget(c, s, k);
    ForgetRefines(c, s, k);
    if r.found {
      var x :| Binds(c, s, k, x) && (x.Value? ==> forall y :: !Binds(c, r.s, k, y));
      BindsOne(c, s, k, x, Core(s.elems[id].slot));
    }
    UnboundIsDead(c, r.s, k);
  }

  lemma {:induction false} ForgottenDead(c: Config, s: State, steps: seq<Step>, id: Id, v: Ptr)
    requires Valid(c) && Inv(c, s) && Runs(c, s, steps)
    requires id in s.elems && Core(s.elems[id].slot) == Value(v) && s.elems[id].key in GoneIn(steps)
    requires forall i :: 0 <= i < |steps| ==> !(steps[i].Get? && steps[i].k == s.elems[id].key)
    requires !Dead(c, After(c, s, steps), s.elems[id])
    ensures AllDead(c, After(c, s, steps), s.elems[id].key)
    decreases |steps|
  {
    hide Wf, Locks, Unique, Later, Enabled, AllDead, Alive, Operations.Get, Operations.Peek, Operations.Finish;
    var s1 := Next(c, s, steps[0]).s;
    var r := After(c, s1, steps[1..]);
    LaterRefl(c, s, {});
    AliveBefore(c, s, r, GoneIn(steps), s.elems[id]);
    hide Known, Dead;
    if steps[0] == Forget(s.elems[id].key) {
      ForgetKills(c, s, id);
      UnboundStays(c, s1, steps[1..], s.elems[id].key);
    } else {
      ValueStays(c, s, s1, r, Gone(steps[0]), GoneIn(steps[1..]), id);
      SameKey(s.elems[id], s1.elems[id]);
      SameDead(c, r, s.elems[id], s1.elems[id]);
      ForgottenDead(c, s1, steps[1..], id, v);
    }
  }

  lemma AliveBefore(c: Config, s: State, r: State, gone: set<Key>, e: Elem)
    requires Known(s) && KnownContent(s, Core(e.slot)) && !Dead(c, r, e)
    ensures Later(c, s, r, gone) ==> !Dead(c, s, e)
  {
    if Later(c, s, r, gone) && Dead(c, s, e) {
      DeadRemains(c, s, r, gone, e, e);
    }
  }

  lemma SameDead(c: Config, r: State, e: Elem, e': Elem)
    requires e'.maxAge == e.maxAge && Core(e'.slot) == Core(e.slot)
    ensures Dead(c, r, e) <==> Dead(c, r, e')
  {
  }

  /** A held pointer, its deadline not passed: after a run in which nobody asked for the key with `get`, the next `get`
      returns the pointer if and only if nobody called `expire` for the key in that run. */
  lemma StableIffKept(c: Config, s: State, steps: seq<Step>, id: Id, v: Ptr, t: Tid, made: Made)
    requires Valid(c) && Inv(c, s) && Runs(c, s, steps)
    requires id in s.elems && Core(s.elems[id].slot) == Value(v)
    requires forall i :: 0 <= i < |steps| ==> !(steps[i].Get? && steps[i].k == s.elems[id].key)
    requires t !in After(c, s, steps).waiters
    requires var r := Operations.Get(c, After(c, s, steps), t, s.elems[id].key, made).s;
      Alive(r, v) && !MaxAged(c, r, s.elems[id])
    ensures var r := Operations.Get(c, After(c, s, steps), t, s.elems[id].key, made);
      !r.created && r.answer == Returned(v) <==> s.elems[id].key !in GoneIn(steps)
  {
    var k, e := s.elems[id].key, After(c, s, steps);
    hide Wf, Known, Locks, Unique, Later, Runs, After, GoneIn, Operations.Get;
    GetKeeps(c, e, t, k, made);
    var r := Operations.Get(c, e, t, k, made).s;
    AliveAt(c, s, e, GoneIn(steps), r, id, v);
    if k in GoneIn(steps) {
      ForgottenDead(c, s, steps, id, v);
      DeadKeyMisses(c, e, k);
      MissCreates(c, e, t, k, made);
    } else {
      PointerStable(c, s, steps, id, v);
      BelowNext(e);
      LiveEnd(c, e, r, s.elems[id], id);
      GetServesLive(c, e, t, k, made, id);
    }
  }

  /** What is alive and in time after the last call was so before it. */
  lemma AliveAt(c: Config, s: State, e: State, gone: set<Key>, r: State, id: Id, v: Ptr)
    requires Known(s) && Known(e) && Known(r) && id in s.elems && Core(s.elems[id].slot) == Value(v)
    requires Alive(r, v) && !MaxAged(c, r, s.elems[id])
    ensures Later(c, s, e, gone) && Later(c, e, r, {}) ==> !Dead(c, r, s.elems[id]) && !Dead(c, e, s.elems[id])
  {
    assert KnownContent(s, Core(s.elems[id].slot));
  }

  lemma LiveEnd(c: Config, e: State, r: State, x: Elem, id: Id)
    requires id in e.elems && id < e.nextId && Follows(x, e.elems[id])
    requires Core(e.elems[id].slot) == Core(x.slot) && Core(x.slot).Value?
    requires !Dead(c, r, x)
    ensures Later(c, e, r, {}) ==> Live(c, r, id)
  {
  }
}
