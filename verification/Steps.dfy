/** What single steps do to waiting threads, to futures and to the keys of the table. */
module Steps {
  import opened ElementState
  import opened CacheState
  import opened Lookup
  import opened Resize
  import opened Evolution
  import opened Operations
  import opened Sections
  import opened Protocol

  // ----- waiting threads and futures

  /** A step of another thread leaves a waiting thread waiting for the same future. */
  lemma WaiterKept(c: Config, s: State, step: Step, t: Tid)
    requires Valid(c) && Inv(c, s) && Enabled(c, s, step) && t in s.waiters
    requires step != Finish(t) && step != Wake(t)
    ensures var r := Next(c, s, step).s; t in r.waiters && r.waiters[t] == s.waiters[t]
  {
    hide Wf, Known, Locks, Unique, Later, Tends, Observe;
    hide Operations.Get, Operations.Peek, Operations.Forget, Operations.Tune, Operations.Finish;
    match step
    case Get(u, k, made) => GetWaiters(c, s, u, k, made);
    case Peek(u, k) => PeekWaiters(c, s, u, k);
    case Forget(k) => ForgetWaiters(c, s, k);
    case Finish(u) => FinishWaiters(c, s, u);
    case Tune(lf) => TuneWaiters(c, s, lf);
    case Pass => SameNext(c, s, Observe(c, s));
    case _ =>
  }

  lemma GetWaiters(c: Config, s: State, t: Tid, k: Key, made: Made)
    requires Valid(c) && Inv(c, s) && t !in s.waiters
    ensures var r := Operations.Get(c, s, t, k, made).s;
      && r.waiters - {t} == s.waiters && r.lf == s.lf
      && (forall f :: f in s.futs ==> f in r.futs && r.futs[f] == s.futs[f])
      && (forall f :: f in r.futs ==> f in s.futs || (c.async && made == Promise(f)))
      && (forall v :: v in r.born ==> v in s.born || made == Ready(v))
  {
    hide Wf, Later, Tends, Unique, Locks, Known, Find, Create, Serve, MaybeRehash, Effective;
    GetKeeps(c, s, t, k, made);
    var f := Find(c, s, k);
    SameNext(c, s, f.s);
    assert s.waiters - {t} == s.waiters;
    if f.Hit? {
      ServeTends(c, f.s, f.id);
      SameNext(c, f.s, Serve(c, f.s, f.id));
    } else {
      var s2 := AskedAt(c, s, k);
      var s3 := MadeAt(c, s, k);
      SameNext(c, f.s, s2);
      SameNext(c, s2, s3);
      var m := Asked(c, s, k, made);
      if !m.Throws? {
        var s4 := Create(c, s3, k, m, s2.now);
        CreateFields(c, s3, k, m, s2.now);
        SameNext(c, s4, MaybeRehash(c, s4));
      }
    }
  }

  lemma PeekWaiters(c: Config, s: State, t: Tid, k: Key)
    requires Inv(c, s) && t !in s.waiters
    ensures var r := Operations.Peek(c, s, t, k).s; r.waiters - {t} == s.waiters && r.lf == s.lf && r.futs == s.futs
  {
    hide Wf, Later, Tends, Unique, Locks, Known, PeekScan, FoundOk;
    SameNext(c, s, PeekScan(c, s, BucketOf(c, s, k), 0, k).s);
    assert s.waiters - {t} == s.waiters;
  }

  lemma ForgetWaiters(c: Config, s: State, k: Key)
    requires Inv(c, s)
    ensures var r := Operations.Forget(c, s, k).s; r.waiters == s.waiters && r.lf == s.lf && r.futs == s.futs
  {
    hide Wf, Later, Tends, Unique, Locks, Known, Scan, Strike;
    var f := Scan(c, s, BucketOf(c, s, k), 0, k, false);
    SameNext(c, s, f.s);
    LocksTends(c, s, f.s);
    if f.Hit? {
      ForgetGuard(c, f.s, f.id);
      SameNext(c, WithSlot(f.s, f.id, Expired(f.s.elems[f.id].slot)), Strike(c, f.s, f.id));
    }
  }

  lemma ForgetGuard(c: Config, s: State, id: Id)
    requires Locks(c, s) && Live(c, s, id)
    ensures s.elems[id].slot.Pending? <==> s.elems[id].useCount > 0
  {
  }

  lemma FinishWaiters(c: Config, s: State, t: Tid)
    requires Valid(c) && Inv(c, s) && t in s.waiters && s.waiters[t].Creator? && Settled(s, s.waiters[t].fut)
    ensures var r := Operations.Finish(c, s, t).s; r.waiters == s.waiters - {t} && r.lf == s.lf && r.futs == s.futs
  {
    hide Wf, Later, Tends, Unique, Known, MaybeRehash, Locks;
    var Creator(f, id) := s.waiters[t];
    var o := s.futs[f].value;
    assert Creates(s, t, id);
    CreatorsElement(c, s, t, id);
    var s1 := Install(s, id, o);
    InstallWf(c, s, id, o);
    var s2 := if o.Failed? then s1 else MaybeRehash(c, s1);
    TendsRefl(c, s1);
    SameNext(c, s1, s2);
  }

  lemma TuneWaiters(c: Config, s: State, lf: real)
    requires Valid(c) && Inv(c, s)
    ensures var r := Operations.Tune(c, s, lf);
      r.waiters == s.waiters && r.futs == s.futs && r.lf == if lf > 0.0 then lf else s.lf
  {
    hide Wf, Later, Tends, Unique, Known, MaybeRehash, Locks;
    if lf > 0.0 {
      var s1 := s.(lf := lf);
      WfFrame(c, s, s1);
      SameNext(c, s1, MaybeRehash(c, s1));
    }
  }

  lemma JoinsElement(s: State, r: State, id: Id, k: Key, x: Content)
    ensures Joins(s, r, id, k, x) ==>
      && id in r.elems && r.elems[id].key == k && r.elems[id].useCount == 1 && r.waiters == s.waiters
      && Core(r.elems[id].slot) == x && !Marked(r.elems[id].slot)
  {
  }

  /** A settled future never changes. */
  lemma FutureKept(c: Config, s: State, step: Step, f: Fut)
    requires Valid(c) && Inv(c, s) && Enabled(c, s, step) && Settled(s, f)
    ensures var r := Next(c, s, step).s; f in r.futs && r.futs[f] == s.futs[f]
  {
    hide Wf, Known, Locks, Unique, Later, Tends, Observe;
    hide Operations.Get, Operations.Peek, Operations.Forget, Operations.Tune, Operations.Finish;
    match step
    case Get(u, k, made) => GetWaiters(c, s, u, k, made);
    case Peek(u, k) => PeekWaiters(c, s, u, k);
    case Forget(k) => ForgetWaiters(c, s, k);
    case Finish(u) => FinishWaiters(c, s, u);
    case Tune(lf) => TuneWaiters(c, s, lf);
    case Pass => SameNext(c, s, Observe(c, s));
    case _ =>
  }

  // ----- creators

  /** The element that thread `t` creates is in the table, pending for the thread's future and locked once. */
  ghost predicate Creating(c: Config, s: State, t: Tid, id: Id, k: Key, f: Fut) {
    && t in s.waiters && s.waiters[t] == Creator(f, id)
    && id in s.elems && s.elems[id].key == k && Core(s.elems[id].slot) == Future(f) && s.elems[id].useCount == 1
    && |s.buckets| > 0 && id in s.buckets[Home(c, |s.buckets|, k)]
  }

  lemma CreatorsCreate(c: Config, s: State, t: Tid)
    requires Inv(c, s) && t in s.waiters && s.waiters[t].Creator?
    ensures var id := s.waiters[t].id; id in s.elems && Creating(c, s, t, id, s.elems[id].key, s.waiters[t].fut)
  {
    hide Home, Known, Unique;
    assert Creates(s, t, s.waiters[t].id);
  }

  /** The creator's element is still there when the creator comes back; it then holds what the future yielded,
      unlocked. */
  lemma FinishInstalls(c: Config, s: State, t: Tid)
    requires Valid(c) && Inv(c, s) && t in s.waiters && s.waiters[t].Creator? && Settled(s, s.waiters[t].fut)
    ensures var id := s.waiters[t].id;
      var o := s.futs[s.waiters[t].fut].value;
      var r := Operations.Finish(c, s, t);
      && id in s.elems && s.elems[id].slot.Pending? && id in r.s.elems
      && Follows(s.elems[id], r.s.elems[id]) && r.s.elems[id].useCount == 0
      && Core(r.s.elems[id].slot) == Core(Resolved(s.elems[id].slot, o))
      && r.answer == AnswerOf(o) && t !in r.s.waiters && ValueOf(o) <= r.s.held
  {
    hide Wf, Known, Locks, Unique, Later, Tends, MaybeRehash;
    var Creator(f, id) := s.waiters[t];
    var o := s.futs[f].value;
    assert Creates(s, t, id);
    CreatorsElement(c, s, t, id);
    var s1 := Install(s, id, o);
    InstallWf(c, s, id, o);
    TendsRefl(c, s1);
    var s2 := if o.Failed? then s1 else MaybeRehash(c, s1);
    ServedStays(c, s1, s2, id);
    ServedUnchanged(c, s1, s2, id);
  }

  // ----- keys

  /** What a lookup that misses leaves behind, if the create function does not throw: a new, unmarked element for the
      key with what was yielded. Unless the creation was slow, that is also what the caller gets; otherwise the caller
      gets null, and the new element is past its age limit and, though it may be pending, unlocked. */
  lemma MissMakes(c: Config, s: State, t: Tid, k: Key, made: Made)
    requires Valid(c) && Inv(c, s) && t !in s.waiters
    requires Find(c, s, k).Miss? && !Asked(c, s, k, made).Throws?
    ensures var r := Operations.Get(c, s, t, k, made);
      var m := Asked(c, s, k, made);
      var id := s.nextId;
      && r.created && id in r.s.elems && r.s.elems[id].key == k
      && Core(r.s.elems[id].slot) == Core(FirstSlot(m)) && !Marked(r.s.elems[id].slot)
      && (c.maxAge.Some? ==> r.s.elems[id].maxAge == AskedAt(c, s, k).now + c.maxAge.value)
      && (m.Promise? ==> r.s.futs == s.futs[m.f := None])
      && (m.Ready? || Slow(c, s, k) ==> r.s.waiters == s.waiters)
      && (Slow(c, s, k) ==> r.answer == Returned(Null) && r.s.elems[id].useCount == 0 && MaxAged(c, r.s, r.s.elems[id]))
      && (!Slow(c, s, k) ==>
            && r.answer == Hands(Core(FirstSlot(m)))
            && (m.Ready? ==> m.v in r.s.held)
            && (m.Promise? ==> t in r.s.waiters && r.s.waiters[t] == Creator(m.f, id) && r.s.elems[id].useCount == 1))
  {
    hide Wf, Tends, Known, Locks, Unique, Create, MaybeRehash, Find, ScanOk, Joins, Effective, MaxAged;
    var f := Find(c, s, k);
    ScanKeeps(c, s, k, f);
    var s2 := AskedAt(c, s, k);
    var s3 := MadeAt(c, s, k);
    SameNext(c, s, f.s);
    SameNext(c, f.s, s2);
    SameNext(c, s2, s3);
    var m := Asked(c, s, k, made);
    var s4 := Create(c, s3, k, m, s2.now);
    var id := s3.nextId;
    CreateFields(c, s3, k, m, s2.now);
    CreateJoins(c, s3, k, m, s2.now);
    CreateLate(c, s3, k, m, s2.now);
    CreateDeadline(c, s3, k, m, s2.now);
    JoinsElement(s3, s4, id, k, Core(FirstSlot(m)));
    var s5 := MaybeRehash(c, s4);
    ServedStays(c, s4, s5, id);
    ServedUnchanged(c, s4, s5, id);
    SameNext(c, s4, s5);
    AgedStays(c, s4, s5, id);
    if Slow(c, s, k) {
      AgedSame(c, s5, Operations.Get(c, s, t, k, made).s, id);
    }
  }

  lemma AgedSame(c: Config, s: State, s': State, id: Id)
    requires id in s.elems && id in s'.elems && s'.now == s.now && s'.elems[id].maxAge == s.elems[id].maxAge
    ensures MaxAged(c, s, s.elems[id]) ==> MaxAged(c, s', s'.elems[id])
  {
  }

  lemma ScanKeeps(c: Config, s: State, k: Key, f: Found)
    ensures ScanOk(c, s, k, f) ==> Wf(c, f.s) && Tends(c, s, f.s)
  {
    hide Wf, Tends, FoundOk;
  }

  predicate OfKey(step: Step, k: Key) {
    (step.Get? || step.Peek? || step.Forget?) && step.k == k
  }

  /** A step creates an element for the key that it asks for, or none. */
  lemma StepKeys(c: Config, s: State, step: Step, id: Id)
    requires Valid(c) && Inv(c, s) && Enabled(c, s, step)
    requires id in Next(c, s, step).s.elems
    ensures var r := Next(c, s, step).s;
      || (id in s.elems && r.elems[id].key == s.elems[id].key)
      || (step.Get? && step.k == r.elems[id].key && id == s.nextId)
  {
    hide Wf, Known, Locks, Unique, Observe;
    hide Operations.Get, Operations.Peek, Operations.Forget, Operations.Finish, Operations.Tune;
    var r := Next(c, s, step).s;
    KnownOf(c, r);
    BelowNext(r);
    if id >= s.nextId {
      match step
      case Get(t, k, made) =>
        if Find(c, s, k).Hit? {
          GetHit(c, s, t, k, made);
        } else {
          GetMiss(c, s, t, k, made);
          if !Asked(c, s, k, made).Throws? {
            MissMakes(c, s, t, k, made);
          }
        }
      case Peek(t, k) => PeekKeeps(c, s, t, k);
      case Forget(k) => ForgetKeeps(c, s, k);
      case Finish(t) => FinishKeeps(c, s, t);
      case Wake(t) => WakeKeeps(c, s, t);
      case Complete(f, o) => CompleteKeeps(c, s, f, o);
      case Tune(lf) => TuneKeeps(c, s, lf);
      case Pass => ObserveKeeps(c, s);
    }
  }

  lemma BelowNext(s: State)
    ensures Known(s) ==> forall id :: id in s.elems ==> id < s.nextId
  {
  }

  lemma StepWaiters(c: Config, s: State, step: Step, t: Tid)
    requires Valid(c) && Inv(c, s) && Enabled(c, s, step)
    requires t in Next(c, s, step).s.waiters
    ensures t in s.waiters || ((step.Get? || step.Peek?) && step.t == t)
  {
    hide Wf, Known, Locks, Unique, Later, Tends, Observe;
    hide Operations.Get, Operations.Peek, Operations.Forget, Operations.Tune, Operations.Finish;
    match step
    case Get(u, k, made) => GetWaiters(c, s, u, k, made);
    case Peek(u, k) => PeekWaiters(c, s, u, k);
    case Forget(k) => ForgetWaiters(c, s, k);
    case Finish(u) => FinishWaiters(c, s, u);
    case Tune(lf) => TuneWaiters(c, s, lf);
    case Pass => SameNext(c, s, Observe(c, s));
    case _ =>
  }

  // ----- who waits after a call

  /** A `get` that answers with a future has registered its thread for that future, as its creator if it created and
      as one that joined if it did not; after any other answer nobody new waits. */
  lemma GetWaits(c: Config, s: State, t: Tid, k: Key, made: Made)
    requires Valid(c) && Inv(c, s) && t !in s.waiters
    ensures var r := Operations.Get(c, s, t, k, made);
      && (r.answer.Waiting? ==> t in r.s.waiters)
      && (r.answer.Waiting? ==> r.s.waiters[t] == if r.created then Creator(r.answer.f, s.nextId) else Join(r.answer.f))
      && (!r.answer.Waiting? ==> r.s.waiters == s.waiters)
  {
    hide Wf, Tends, Known, Locks, Unique, Create, FinishNow, Find, ScanOk, Effective, Serve, Slow;
    var f := Find(c, s, k);
    ScanKeeps(c, s, k, f);
    SameNext(c, s, f.s);
    if f.Hit? {
      FoundElem(c, s, k, f);
      ServeTends(c, f.s, f.id);
      SameNext(c, f.s, Serve(c, f.s, f.id));
    } else if Asked(c, s, k, made).Throws? {
      SameNext(c, f.s, AskedAt(c, s, k));
      SameNext(c, AskedAt(c, s, k), MadeAt(c, s, k));
    } else {
      MissMakes(c, s, t, k, made);
    }
  }

  lemma FoundElem(c: Config, s: State, k: Key, f: Found)
    requires ScanOk(c, s, k, f) && f.Hit?
    ensures Wf(c, f.s) && f.id in f.s.elems && !Dead(c, f.s, f.s.elems[f.id])
  {
  }

  lemma PeekWaits(c: Config, s: State, t: Tid, k: Key)
    requires Valid(c) && Inv(c, s) && t !in s.waiters
    ensures var r := Operations.Peek(c, s, t, k);
      && (r.answer.Waiting? ==> t in r.s.waiters && r.s.waiters[t] == Join(r.answer.f))
      && (!r.answer.Waiting? ==> r.s.waiters == s.waiters)
  {
    hide Wf, Tends, Known, Locks, Unique, PeekScan, ScanOk, DeadBefore;
    DeadBeforeNone(c, s, BucketOf(c, s, k), k);
    var f := PeekScan(c, s, BucketOf(c, s, k), 0, k);
    ScanKeeps(c, s, k, f);
    SameNext(c, s, f.s);
  }

  /** The thread of the step now waits for future `f`, as the creator or as one that joined. */
  ghost predicate NowWaits(step: Step, r: Reply, f: Fut) {
    && (step.Get? || step.Peek?) && step.t in r.s.waiters
    && r.s.waiters[step.t].fut == f && (r.s.waiters[step.t].Join? <==> !r.created)
  }

  lemma CallWaits(c: Config, s: State, step: Step)
    requires Valid(c) && Inv(c, s) && Enabled(c, s, step) && (step.Get? || step.Peek?)
    ensures var r := Next(c, s, step); r.answer.Waiting? ==> NowWaits(step, r, r.answer.f)
  {
    hide Wf, Known, Locks, Unique, Later, Operations.Get, Operations.Peek;
    match step
    case Get(t, k, made) => GetWaits(c, s, t, k, made);
    case Peek(t, k) => PeekWaits(c, s, t, k); PeekCreatesNone(c, s, t, k);
  }

  lemma PeekCreatesNone(c: Config, s: State, t: Tid, k: Key)
    requires Wf(c, s) && t !in s.waiters
    ensures !Operations.Peek(c, s, t, k).created
  {
    hide Wf, PeekScan;
  }
}
