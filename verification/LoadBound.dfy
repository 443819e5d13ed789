/** When the table grows, and that the load factor of the synchronous cache is kept by every call. */
module LoadBound {
  import opened ElementState
  import opened CacheState
  import opened Maintenance
  import opened Lookup
  import opened Growth
  import opened Resize
  import opened Evolution
  import opened Operations
  import opened Sections
  import opened Protocol
  import opened Steps
  import opened Pruning

  ghost predicate LoadOk(s: State)
    requires s.lf > 0.0
  {
    Ceil(s.size as real / s.lf) <= |s.buckets|
  }

  /** Growing from `n` buckets is limited neither by the word size nor by the vector. */
  predicate Roomy(c: Config, n: nat) {
    (n / 7 + 1) * 9 < c.wordSize && (n / 7 + 1) * 9 <= c.maxBuckets
  }

  ghost predicate Growable(c: Config) {
    forall n :: c.canGrow(n)
  }

  lemma RoomySmaller(c: Config, n: nat, n': nat)
    requires n <= n'
    ensures Roomy(c, n') ==> Roomy(c, n)
  {
  }

  lemma MapSubsetSize(m: map<Id, Elem>, m': map<Id, Elem>)
    requires m'.Keys <= m.Keys
    ensures |m'| <= |m|
  {
    assert |m.Keys| == |m'.Keys| + |m.Keys - m'.Keys| by {
      assert m'.Keys + (m.Keys - m'.Keys) == m.Keys;
    }
  }

  lemma SizeTends(c: Config, s: State, s': State)
    requires Wf(c, s) && Wf(c, s')
    ensures Tends(c, s, s') ==> 0 <= s'.size <= s.size && |s.buckets| <= |s'.buckets| && s'.lf == s.lf
  {
    if Tends(c, s, s') {
      assert s'.elems.Keys <= s.elems.Keys;
      MapSubsetSize(s.elems, s'.elems);
    }
  }

  lemma LoadTends(c: Config, s: State, s': State)
    requires Wf(c, s) && Wf(c, s') && s.lf > 0.0
    ensures Tends(c, s, s') && LoadOk(s) ==> s'.lf == s.lf && LoadOk(s')
  {
    hide Wf, Tends;
    SizeTends(c, s, s');
    if s'.size <= s.size {
      FewerElements(s.size, s'.size, s.lf);
    }
  }

  /** One growth step makes up for one new element. */
  lemma RehashRestoresLoad(c: Config, s: State)
    requires Wf(c, s) && s.lf >= 1.0 / 3.0 && Valid(c) && Growable(c)
    requires Ceil(s.size as real / s.lf) <= |s.buckets| + 3 && Roomy(c, |s.buckets|)
    ensures var r := MaybeRehash(c, s); r.lf == s.lf && LoadOk(r)
  {
    hide Wf, Tends, Trims, EraseAllExpired, Rehash;
    var n := |s.buckets|;
    NextBucketsGrows(n, c.wordSize, c.maxBuckets);
    if n < Target(c, s) {
      var s1 := EraseAllExpired(c, s, 0, 0);
      SizeTends(c, s, s1);
      FewerElements(s.size, s1.size, s.lf);
    }
  }

  lemma GetMissLoad(c: Config, s: State, k: Key, made: Made, at: int, given: set<Ptr>)
    requires Valid(c) && Wf(c, s) && made.Ready? && s.lf >= 1.0 / 3.0 && Growable(c) && LoadOk(s)
    ensures var s3 := Create(c, s, k, made, at);
      && Wf(c, s3) && s3.lf == s.lf && s.nextId in s3.elems && s3.elems[s.nextId].useCount == 1
      && var r := FinishNow(c, s3, s.nextId, given);
         r.lf == s.lf && |s.buckets| <= |s3.buckets| <= |r.buckets| && (Roomy(c, |r.buckets|) ==> LoadOk(r))
  {
    hide Wf, Tends, Create, MaybeRehash, LoadOk;
    var s3 := Create(c, s, k, made, at);
    CreateFields(c, s, k, made, at);
    CreateSize(c, s, k, made, at);
    var r := MaybeRehash(c, s3);
    SizeTends(c, s3, r);
    if Roomy(c, |r.buckets|) {
      RoomySmaller(c, |s3.buckets|, |r.buckets|);
      OneMoreElement(s, s3);
      RehashRestoresLoad(c, s3);
      LoadSame(r, FinishNow(c, s3, s.nextId, given));
    }
  }

  lemma LoadSame(s: State, s': State)
    requires s'.size == s.size && s'.lf == s.lf && s'.buckets == s.buckets && s.lf > 0.0
    ensures LoadOk(s) ==> LoadOk(s')
  {
  }

  lemma OneMoreElement(s: State, s3: State)
    requires s.lf >= 1.0 / 3.0 && s3.lf == s.lf && LoadOk(s)
    requires 0 <= s.size && s3.size <= s.size + 1 && |s.buckets| <= |s3.buckets|
    ensures Ceil(s3.size as real / s3.lf) <= |s3.buckets| + 3
  {
    OneMore(s.size, s.lf);
    FewerElements(s.size + 1, s3.size, s.lf);
  }

  lemma CreateSize(c: Config, s: State, k: Key, made: Made, at: int)
    requires Wf(c, s) && !made.Throws?
    ensures var r := Create(c, s, k, made, at); 0 <= s.size && r.size <= s.size + 1 && |s.buckets| <= |r.buckets|
  {
    hide Tends, AfterInsert, Coupled, Linked;
    var s1 := Invent(s, made, Late(c, s, at));
    WfFrame(c, s, s1);
    var s2 := Insert(c, s1, k, FirstSlot(made), at);
    SizeTends(c, s2, AfterInsert(c, s2));
  }

  /** After every `get` of the synchronous cache the table has a bucket for every `lf` elements. */
  lemma GetKeepsLoad(c: Config, s: State, t: Tid, k: Key, made: Made)
    requires Valid(c) && Inv(c, s) && t !in s.waiters
    requires !c.async && s.lf >= 1.0 / 3.0 && Growable(c) && LoadOk(s)
    ensures var r := Operations.Get(c, s, t, k, made).s; r.lf == s.lf && (Roomy(c, |r.buckets|) ==> LoadOk(r))
  {
    hide Wf, Later, Tends, Unique, Locks, Known, Find, Create, Serve, FinishNow, LoadOk, Roomy;
    var f := Find(c, s, k);
    LoadTends(c, s, f.s);
    if f.Hit? {
      var r := Serve(c, f.s, f.id);
      ServeTends(c, f.s, f.id);
      LoadTends(c, f.s, r);
      LoadSame(r, Operations.Get(c, s, t, k, made).s);
    } else {
      var s2 := AskedAt(c, s, k);
      var s3 := MadeAt(c, s, k);
      LoadTends(c, f.s, s2);
      LoadTends(c, s2, s3);
      var m := Asked(c, s, k, made);
      if m.Ready? {
        GetMissLoad(c, s3, k, m, s2.now, if Slow(c, s, k) then {} else {m.v});
      }
    }
  }

  lemma NoNewElement(c: Config, s: State, s': State, gone: set<Key>)
    requires Wf(c, s) && Wf(c, s') && s.lf > 0.0
    ensures Later(c, s, s', gone) && s'.nextId == s.nextId && s'.lf == s.lf && LoadOk(s) ==> LoadOk(s')
  {
    if Later(c, s, s', gone) && s'.nextId == s.nextId {
      assert s'.elems.Keys <= s.elems.Keys;
      MapSubsetSize(s.elems, s'.elems);
      FewerElements(s.size, s'.size, s.lf);
    }
  }

  lemma StepKeepsLoad(c: Config, s: State, step: Step)
    requires Valid(c) && Inv(c, s) && Enabled(c, s, step) && !step.Tune?
    requires !c.async && s.lf >= 1.0 / 3.0 && Growable(c) && LoadOk(s)
    ensures var r := Next(c, s, step).s; r.lf == s.lf && (Roomy(c, |r.buckets|) ==> LoadOk(r))
  {
    hide Wf, Later, Tends, Unique, Locks, Known, LoadOk, Roomy, Observe;
    hide Operations.Get, Operations.Peek, Operations.Forget, Operations.Finish;
    if step.Get? {
      GetKeepsLoad(c, s, step.t, step.k, step.made);
    } else {
      var r := Next(c, s, step).s;
      match step {
        case Peek(t, k) => PeekWaiters(c, s, t, k); PeekKeeps(c, s, t, k);
        case Forget(k) => ForgetWaiters(c, s, k); ForgetKeeps(c, s, k);
        case Finish(t) => FinishWaiters(c, s, t); FinishKeeps(c, s, t);
        case Pass => SameNext(c, s, Observe(c, s)); ObserveKeeps(c, s);
        case _ =>
      }
      NoNewElement(c, s, r, Gone(step));
    }
  }

  /** In a synchronous cache with a fixed load factor of at least one third, the load bound holds after every run, as
      long as allocations succeed and the table has not grown to its limits. */
  lemma {:induction false} LoadBoundAlways(c: Config, s: State, steps: seq<Step>)
    requires Valid(c) && Inv(c, s) && Runs(c, s, steps)
    requires forall i :: 0 <= i < |steps| ==> !steps[i].Tune?
    requires !c.async && s.lf >= 1.0 / 3.0 && Growable(c) && LoadOk(s)
    requires Roomy(c, |After(c, s, steps).buckets|)
    ensures var r := After(c, s, steps); r.lf == s.lf && LoadOk(r)
    decreases |steps|
  {
    hide Wf, Tends, Unique, Locks, Known, LoadOk, Roomy, Next, Enabled, Live, Dead, Follows, Alive;
    if steps != [] {
      var s1 := Next(c, s, steps[0]).s;
      StepKeepsLoad(c, s, steps[0]);
      var r := After(c, s1, steps[1..]);
      RoomySmaller(c, |s1.buckets|, |r.buckets|);
      LoadBoundAlways(c, s1, steps[1..]);
    }
  }

  // ----- when the table grows, and by how much

  /** Do `size` elements ask for more than `n` buckets? */
  predicate Wanted(c: Config, n: nat, size: int, lf: real)
    requires lf > 0.0
  {
    n < TargetBuckets(size, lf, c.maxBuckets)
  }

  /** The number of buckets that a table of `n` has in state `r`, after a section that ends with the test for growth:
      one growth step more if the elements that are left ask for it, there is room for it and memory for it. */
  function GrownTo(c: Config, n: nat, r: State): nat
    requires r.lf > 0.0 && c.wordSize > 0
  {
    var m := NextBuckets(n, c.wordSize, c.maxBuckets);
    if Wanted(c, n, r.size, r.lf) && n < m && c.canGrow(r.tick) then m else n
  }

  /** No dead, unlocked element of `s` is left in `r`. */
  ghost predicate Cleared(c: Config, s: State, r: State) {
    forall x :: Doomed(c, s, x) ==> x !in r.elems
  }

  lemma RehashExact(c: Config, s: State)
    requires Wf(c, s) && s.lf > 0.0 && c.wordSize > 0
    ensures var r := MaybeRehash(c, s);
      && r.lf == s.lf && |r.buckets| == GrownTo(c, |s.buckets|, r)
      && (if Wanted(c, |s.buckets|, s.size, s.lf) then Cleared(c, s, r) else r == s)
  {
    hide Wf, Tends, Trims, EraseAllExpired, Resize.Rehash, Dead, TargetBuckets, NextBuckets;
    var s1, r := EraseAllExpired(c, s, 0, 0), MaybeRehash(c, s);
    LoadFactorKept(c, s, s1);
    if Wanted(c, |s.buckets|, s.size, s.lf) {
      forall x | x in s.elems && s.elems[x].useCount == 0 && Dead(c, s, s.elems[x]) ensures x !in r.elems {
        FullMaintenance(c, s, x);
      }
    }
  }

  /** A section that ends with the test for growth, and whose table may grow, leaves the load bound or three buckets
      more. */
  lemma GrownOrLoaded(c: Config, n: nat, r: State)
    requires r.lf > 0.0 && c.wordSize > 0 && Growable(c) && Roomy(c, n) && |r.buckets| == GrownTo(c, n, r)
    ensures LoadOk(r) || |r.buckets| >= n + 3
  {
    NextBucketsGrows(n, c.wordSize, c.maxBuckets);
  }

  /** The creator's return tests for growth exactly if the future has not failed. */
  lemma FinishGrows(c: Config, s: State, t: Tid)
    requires Valid(c) && Inv(c, s) && t in s.waiters && s.waiters[t].Creator? && Settled(s, s.waiters[t].fut)
    ensures var r := Operations.Finish(c, s, t).s; var id, o := s.waiters[t].id, s.futs[s.waiters[t].fut].value;
      && r.lf == s.lf
      && |r.buckets| == (if o.Done? then GrownTo(c, |s.buckets|, r) else |s.buckets|)
      && (if o.Done? && Wanted(c, |s.buckets|, s.size, s.lf) then Cleared(c, s, r)
          else r.elems.Keys == s.elems.Keys && r.buckets == s.buckets && r.queue == s.queue)
      && r.queue.All() == Those(s.queue.All(), r.elems.Keys)
      && (forall x :: x in r.elems && x != id ==> x in s.elems && r.elems[x] == s.elems[x])
      && (o.Done? && Growable(c) && Roomy(c, |s.buckets|) ==> LoadOk(r) || |r.buckets| >= |s.buckets| + 3)
  {
    hide Wf, Known, Unique, Tends, Trims, MaybeRehash, GrownTo, Wanted, Cleared, Those, LoadOk, Roomy, Dead;
    var Creator(f, id) := s.waiters[t];
    var o := s.futs[f].value;
    assert Creates(s, t, id);
    hide Locks;
    var s1 := Install(s, id, o);
    InstallWf(c, s, id, o);
    var s2 := if o.Failed? then s1 else MaybeRehash(c, s1);
    var r := Operations.Finish(c, s, t).s;
    PrunedRefl(c, s1, s1);
    TendsRefl(c, s1);
    if o.Done? {
      RehashExact(c, s1);
      MaybeRehashPruned(c, s1);
      InstallCleared(c, s, t, id, s2);
    }
    ServedStays(c, s1, s2, id);
    assert r.elems.Keys == s2.elems.Keys && s1.elems.Keys == s.elems.Keys;
    SameGrowth(c, |s.buckets|, s2, r);
    ClearedSame(c, s, s2, r);
    if o.Done? && Growable(c) && Roomy(c, |s.buckets|) {
      GrownOrLoaded(c, |s.buckets|, r);
    }
  }

  lemma SameGrowth(c: Config, n: nat, r: State, r': State)
    requires r'.lf == r.lf > 0.0 && c.wordSize > 0 && r'.size == r.size && r'.tick == r.tick
    ensures GrownTo(c, n, r') == GrownTo(c, n, r)
  {
  }

  lemma ClearedSame(c: Config, s: State, r: State, r': State)
    requires r'.elems.Keys == r.elems.Keys
    ensures Cleared(c, s, r) ==> Cleared(c, s, r')
  {
  }

  lemma InstallCleared(c: Config, s: State, t: Tid, id: Id, r: State)
    requires Creates(s, t, id) && Settled(s, s.waiters[t].fut) && id in s.elems && s.elems[id].useCount > 0
    requires s.elems[id].slot.Pending? && s.elems[id].slot.fut == s.waiters[t].fut
    ensures Cleared(c, Install(s, id, s.futs[s.waiters[t].fut].value), r) ==> Cleared(c, s, r)
  {
    var s1 := Install(s, id, s.futs[s.waiters[t].fut].value);
    InstallAlive(s, t, id);
    hide Alive, Creates;
    if Cleared(c, s1, r) {
      forall x | x in s.elems && s.elems[x].useCount == 0 && Dead(c, s, s.elems[x]) ensures x !in r.elems {
        assert s1.elems[x] == s.elems[x];
      }
    }
  }

  /** A new load factor is stored and the table tested for growth, unless the factor is refused. */
  lemma TuneGrows(c: Config, s: State, lf: real)
    requires Valid(c) && Inv(c, s)
    ensures var r := Operations.Tune(c, s, lf);
      if lf <= 0.0 then r == s else
        && r.lf == lf && |r.buckets| == GrownTo(c, |s.buckets|, r) && Pruned(s, r)
        && (if Wanted(c, |s.buckets|, s.size, lf) then Cleared(c, s, r) else r == s.(lf := lf))
        && (Growable(c) && Roomy(c, |s.buckets|) ==> LoadOk(r) || |r.buckets| >= |s.buckets| + 3)
  {
    hide Wf, Known, Unique, Locks, Tends, Trims, MaybeRehash, GrownTo, Wanted, LoadOk, Roomy, Those, Dead;
    if lf > 0.0 {
      var s1 := s.(lf := lf);
      WfFrame(c, s, s1);
      RehashExact(c, s1);
      MaybeRehashPruned(c, s1);
      ClearedFrom(c, s, s1, Operations.Tune(c, s, lf));
      if Growable(c) && Roomy(c, |s.buckets|) {
        GrownOrLoaded(c, |s.buckets|, Operations.Tune(c, s, lf));
      }
    }
  }

  lemma ClearedFrom(c: Config, s: State, s': State, r: State)
    requires s' == s.(lf := s'.lf)
    ensures Cleared(c, s', r) ==> Cleared(c, s, r)
  {
    forall v ensures Alive(s, v) <==> Alive(s', v) {}
    hide Alive;
  }

  /** A `get` tests for growth exactly if it created and need not wait for the future. */
  lemma GetGrows(c: Config, s: State, t: Tid, k: Key, made: Made)
    requires Valid(c) && Inv(c, s) && t !in s.waiters
    ensures var r := Operations.Get(c, s, t, k, made); var n := |s.buckets|;
      && r.s.lf == s.lf
      && |r.s.buckets| == (if r.created && !r.answer.Waiting? then GrownTo(c, n, r.s) else n)
      && (r.created && !r.answer.Waiting? && Growable(c) && Roomy(c, n) ==> LoadOk(r.s) || |r.s.buckets| >= n + 3)
  {
    hide Wf, Known, Unique, Locks, Tends, Trims, Find, Serve, FinishNow, GrownTo, LoadOk, Roomy, FoundOk, Create;
    hide Effective;
    var f, r := Find(c, s, k), Operations.Get(c, s, t, k, made);
    SameNext(c, s, f.s);
    if f.Hit? {
      HitBuckets(c, s, k, f);
      ServedLoad(c, f.s, f.id);
    } else {
      var s2, s3 := AskedAt(c, s, k), MadeAt(c, s, k);
      SameNext(c, f.s, s2);
      SameNext(c, s2, s3);
      var m := Asked(c, s, k, made);
      if !m.Throws? {
        var s4 := Create(c, s3, k, m, s2.now);
        CreateFields(c, s3, k, m, s2.now);
        if !r.answer.Waiting? {
          NowGrows(c, s4, s3.nextId, if Slow(c, s, k) then {} else {m.v});
          if Growable(c) && Roomy(c, |s.buckets|) {
            GrownOrLoaded(c, |s.buckets|, r.s);
          }
        }
      }
    }
  }

  lemma HitBuckets(c: Config, s: State, k: Key, f: Found)
    requires ScanOk(c, s, k, f) && f.Hit?
    ensures Wf(c, f.s) && f.id in f.s.elems && !Dead(c, f.s, f.s.elems[f.id]) && |f.s.buckets| == |s.buckets|
  {
  }

  lemma ServedLoad(c: Config, s: State, id: Id)
    requires Wf(c, s) && id in s.elems && !Dead(c, s, s.elems[id])
    ensures Serve(c, s, id).lf == s.lf
  {
    hide Wf, Tends, Serve;
    ServeTends(c, s, id);
    SameNext(c, s, Serve(c, s, id));
  }

  lemma NowGrows(c: Config, s: State, id: Id, given: set<Ptr>)
    requires Wf(c, s) && s.lf > 0.0 && c.wordSize > 0 && id in s.elems && s.elems[id].useCount > 0
    ensures var r := FinishNow(c, s, id, given); r.lf == s.lf && |r.buckets| == GrownTo(c, |s.buckets|, r)
  {
    hide Wf, Tends, Trims, MaybeRehash, Wanted, Cleared, TargetBuckets, NextBuckets;
    RehashExact(c, s);
    ServedStays(c, s, MaybeRehash(c, s), id);
    SameGrowth(c, |s.buckets|, MaybeRehash(c, s), FinishNow(c, s, id, given));
  }

  // ----- the load of the asynchronous cache

  /** The threads that are in the middle of a creation. */
  ghost function Creators(s: State): set<Tid> {
    set t | t in s.waiters && s.waiters[t].Creator?
  }

  /** The table lacks at most three buckets for each of `d` elements. */
  ghost predicate Owes(s: State, d: nat)
    requires s.lf > 0.0
  {
    Ceil(s.size as real / s.lf) <= |s.buckets| + 3 * d
  }

  /** Does the step end a creation whose future has failed? */
  predicate Fails(s: State, step: Step) {
    && step.Finish? && step.t in s.waiters && Settled(s, s.waiters[step.t].fut)
    && s.futs[s.waiters[step.t].fut].value.Failed?
  }

  lemma SizeCounts(c: Config, s: State)
    ensures Wf(c, s) ==> s.size == |s.elems| >= 0 && forall id :: id in s.elems ==> id < s.nextId
  {
    hide Home, Linked, Coupled, Accounted;
  }

  lemma KeysLater(c: Config, s: State, r: State, gone: set<Key>)
    requires Later(c, s, r, gone) && r.nextId <= s.nextId + 1 && forall id :: id in r.elems ==> id < r.nextId
    ensures r.nextId == s.nextId ==> r.elems.Keys <= s.elems.Keys
    ensures r.elems.Keys <= s.elems.Keys + {s.nextId}
  {
  }

  lemma SizeLater(c: Config, s: State, r: State, gone: set<Key>)
    requires Wf(c, s) && Wf(c, r) && Later(c, s, r, gone) && r.nextId <= s.nextId + 1
    ensures r.nextId == s.nextId ==> r.size <= s.size
    ensures r.size <= s.size + 1 && 0 <= s.size
  {
    hide Wf, Later;
    SizeCounts(c, s);
    SizeCounts(c, r);
    KeysLater(c, s, r, gone);
    KeysSubset(r.elems.Keys, s.elems.Keys + {s.nextId});
    if r.nextId == s.nextId {
      KeysSubset(r.elems.Keys, s.elems.Keys);
    }
    assert |s.elems.Keys + {s.nextId}| <= |s.elems.Keys| + 1;
  }

  lemma KeysSubset(a: set<Id>, b: set<Id>)
    requires a <= b
    ensures |a| <= |b|
  {
    assert b == a + (b - a);
  }

  lemma OwesLess(s: State, r: State, d: nat, d': nat)
    requires s.lf > 0.0 && r.lf == s.lf && r.size <= s.size && |s.buckets| + 3 * d <= |r.buckets| + 3 * d'
    ensures Owes(s, d) ==> Owes(r, d')
  {
    FewerElements(s.size, r.size, s.lf);
  }

  lemma OwesMore(s: State, r: State, d: nat, d': nat)
    requires s.lf >= 1.0 / 3.0 && r.lf == s.lf && 0 <= s.size && r.size <= s.size + 1
    requires |s.buckets| + 3 * d + 3 <= |r.buckets| + 3 * d'
    ensures Owes(s, d) ==> Owes(r, d')
  {
    OneMore(s.size, s.lf);
    FewerElements(s.size + 1, r.size, s.lf);
  }

  lemma LoadOwes(s: State, d: nat)
    requires s.lf > 0.0
    ensures LoadOk(s) ==> Owes(s, d)
  {
  }

  lemma GetOwes(c: Config, s: State, t: Tid, k: Key, made: Made, d: nat)
    requires Valid(c) && Inv(c, s) && t !in s.waiters
    requires s.lf >= 1.0 / 3.0 && Growable(c) && Owes(s, |Creators(s)| + d)
    ensures var r := Operations.Get(c, s, t, k, made).s;
      r.lf == s.lf && (Roomy(c, |r.buckets|) ==> Owes(r, |Creators(r)| + d))
  {
    hide Wf, Known, Unique, Locks, Later, Operations.Get, LoadOk, Owes, Roomy;
    var r := Operations.Get(c, s, t, k, made);
    GetGrows(c, s, t, k, made);
    GetKeeps(c, s, t, k, made);
    GetWaits(c, s, t, k, made);
    GetNumber(c, s, t, k, made);
    SizeLater(c, s, r.s, {});
    GetCreators(c, s, t, k, made);
    if Roomy(c, |r.s.buckets|) {
      NoFewer(c, |s.buckets|, r.s);
      RoomySmaller(c, |s.buckets|, |r.s.buckets|);
      if !r.created {
        OwesLess(s, r.s, |Creators(s)| + d, |Creators(r.s)| + d);
      } else if r.answer.Waiting? {
        OwesMore(s, r.s, |Creators(s)| + d, |Creators(r.s)| + d);
      } else {
        LoadOwes(r.s, |Creators(r.s)| + d);
        if !LoadOk(r.s) {
          OwesMore(s, r.s, |Creators(s)| + d, |Creators(r.s)| + d);
        }
      }
    }
  }

  lemma NoFewer(c: Config, n: nat, r: State)
    requires r.lf > 0.0 && c.wordSize > 0
    ensures n <= GrownTo(c, n, r)
  {
    hide TargetBuckets, NextBuckets;
  }

  lemma GetNumber(c: Config, s: State, t: Tid, k: Key, made: Made)
    requires Valid(c) && Inv(c, s) && t !in s.waiters
    ensures var r := Operations.Get(c, s, t, k, made); r.s.nextId == if r.created then s.nextId + 1 else s.nextId
  {
    hide Wf, Known, Unique, Locks, Later, Find, Create, FinishNow, Serve, Effective;
    if Find(c, s, k).Hit? {
      GetHit(c, s, t, k, made);
    } else {
      GetMiss(c, s, t, k, made);
    }
  }

  lemma GetCreators(c: Config, s: State, t: Tid, k: Key, made: Made)
    requires Valid(c) && Inv(c, s) && t !in s.waiters
    ensures var r := Operations.Get(c, s, t, k, made);
      |Creators(r.s)| == |Creators(s)| + if r.created && r.answer.Waiting? then 1 else 0
  {
    hide Wf, Known, Unique, Locks, Later, Operations.Get;
    var r := Operations.Get(c, s, t, k, made);
    GetWaits(c, s, t, k, made);
    GetWaiters(c, s, t, k, made);
    assert forall u :: u in s.waiters ==> u in r.s.waiters - {t} && (r.s.waiters - {t})[u] == s.waiters[u];
    assert forall u :: u in r.s.waiters && u != t ==> u in r.s.waiters - {t};
    if r.created && r.answer.Waiting? {
      assert Creators(r.s) == Creators(s) + {t};
    } else {
      assert Creators(r.s) == Creators(s);
    }
  }

  lemma FinishOwes(c: Config, s: State, t: Tid, d: nat)
    requires Valid(c) && Inv(c, s) && t in s.waiters && s.waiters[t].Creator? && Settled(s, s.waiters[t].fut)
    requires s.lf >= 1.0 / 3.0 && Growable(c) && Owes(s, |Creators(s)| + d)
    ensures var r := Operations.Finish(c, s, t).s; var e := if Fails(s, Finish(t)) then d + 1 else d;
      r.lf == s.lf && (Roomy(c, |r.buckets|) ==> Owes(r, |Creators(r)| + e))
  {
    hide Wf, Known, Unique, Locks, Later, Operations.Finish, LoadOk, Owes, Roomy, Cleared, Wanted, Those;
    var r := Operations.Finish(c, s, t).s;
    FinishGrows(c, s, t);
    FinishKeeps(c, s, t);
    FinishWaiters(c, s, t);
    FinishNumber(c, s, t);
    SizeLater(c, s, r, {});
    assert Creators(r) == Creators(s) - {t};
    if Roomy(c, |r.buckets|) {
      NoFewer(c, |s.buckets|, r);
      RoomySmaller(c, |s.buckets|, |r.buckets|);
      if Fails(s, Finish(t)) {
        OwesLess(s, r, |Creators(s)| + d, |Creators(r)| + d + 1);
      } else {
        LoadOwes(r, |Creators(r)| + d);
        if !LoadOk(r) {
          OwesLess(s, r, |Creators(s)| + d, |Creators(r)| + d);
        }
      }
    }
  }

  lemma FinishNumber(c: Config, s: State, t: Tid)
    requires Valid(c) && Inv(c, s) && t in s.waiters && s.waiters[t].Creator? && Settled(s, s.waiters[t].fut)
    ensures Operations.Finish(c, s, t).s.nextId == s.nextId
  {
    hide Wf, Known, Unique, Tends, MaybeRehash, Trims;
    var Creator(f, id) := s.waiters[t];
    assert Creates(s, t, id);
    InstallWf(c, s, id, s.futs[f].value);
    SameNext(c, Install(s, id, s.futs[f].value), MaybeRehash(c, Install(s, id, s.futs[f].value)));
  }

  lemma StepOwes(c: Config, s: State, step: Step, d: nat)
    requires Valid(c) && Inv(c, s) && Enabled(c, s, step) && !step.Tune?
    requires s.lf >= 1.0 / 3.0 && Growable(c) && Owes(s, |Creators(s)| + d)
    ensures var r := Next(c, s, step).s; var e := if Fails(s, step) then d + 1 else d;
      r.lf == s.lf && (Roomy(c, |r.buckets|) ==> Owes(r, |Creators(r)| + e))
  {
    hide Wf, Later, Tends, Unique, Locks, Known, Owes, Roomy, Observe;
    hide Operations.Get, Operations.Peek, Operations.Forget, Operations.Finish;
    match step
    case Get(t, k, made) => GetOwes(c, s, t, k, made, d);
    case Finish(t) => FinishOwes(c, s, t, d);
    case _ => QuietOwes(c, s, step, d);
  }

  lemma QuietOwes(c: Config, s: State, step: Step, d: nat)
    requires Valid(c) && Inv(c, s) && Enabled(c, s, step) && !step.Tune? && !step.Get? && !step.Finish?
    requires s.lf > 0.0 && Owes(s, |Creators(s)| + d)
    ensures var r := Next(c, s, step).s; r.lf == s.lf && Owes(r, |Creators(r)| + d)
  {
    hide Wf, Later, Tends, Unique, Locks, Known, Owes, Observe, Operations.Peek, Operations.Forget;
    var r := Next(c, s, step).s;
    match step {
      case Peek(t, k) =>
        PeekWaiters(c, s, t, k);
        PeekKeeps(c, s, t, k);
        PeekWaits(c, s, t, k);
        assert forall u :: u in s.waiters ==> u in r.waiters - {t} && (r.waiters - {t})[u] == s.waiters[u];
      case Forget(k) => ForgetWaiters(c, s, k); ForgetKeeps(c, s, k);
      case Pass => SameNext(c, s, Observe(c, s)); ObserveKeeps(c, s);
      case Wake(t) =>
      case Complete(f, o) =>
    }
    assert Creators(r) == Creators(s);
    SizeLater(c, s, r, Gone(step));
    MoreBuckets(c, s, r, Gone(step));
    OwesLess(s, r, |Creators(s)| + d, |Creators(r)| + d);
  }

  lemma MoreBuckets(c: Config, s: State, r: State, gone: set<Key>)
    ensures Later(c, s, r, gone) ==> |s.buckets| <= |r.buckets|
  {
  }

  /** The number of creations in a run whose future has failed. */
  ghost function Failures(c: Config, s: State, steps: seq<Step>): nat
    requires Valid(c) && Inv(c, s) && Runs(c, s, steps)
    decreases |steps|
  {
    hide Later, Next, Known, Locks, Unique;
    if steps == [] then 0
    else (if Fails(s, steps[0]) then 1 else 0) + Failures(c, Next(c, s, steps[0]).s, steps[1..])
  }

  /** Asynchronous or not, with a fixed load factor of at least one third, at the end of every run the table lacks at
      most three buckets for each thread that is in the middle of a creation and for each creation that has failed. */
  lemma {:induction false} LoadOwedAlways(c: Config, s: State, steps: seq<Step>, d: nat)
    requires Valid(c) && Inv(c, s) && Runs(c, s, steps)
    requires forall i :: 0 <= i < |steps| ==> !steps[i].Tune?
    requires s.lf >= 1.0 / 3.0 && Growable(c) && Owes(s, |Creators(s)| + d)
    requires Roomy(c, |After(c, s, steps).buckets|)
    ensures var r := After(c, s, steps); r.lf == s.lf && Owes(r, |Creators(r)| + d + Failures(c, s, steps))
    decreases |steps|
  {
    hide Inv, Later, Owes, Roomy, Next, Enabled, Fails, Creators, Growable;
    if steps != [] {
      var s1 := Next(c, s, steps[0]).s;
      var e := if Fails(s, steps[0]) then d + 1 else d;
      StepOwes(c, s, steps[0], d);
      MoreBuckets(c, s1, After(c, s1, steps[1..]), GoneIn(steps[1..]));
      RoomySmaller(c, |s1.buckets|, |After(c, s1, steps[1..]).buckets|);
      LoadOwedAlways(c, s1, steps[1..], e);
    }
  }
}
