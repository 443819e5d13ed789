/** The destructor: every bucket is emptied from its head. */
module Destruction {
  import opened Sequences
  import opened CacheState
  import opened Lookup

  /** No thread is inside a creation. */
  ghost predicate Unlocked(s: State) {
    forall id :: id in s.elems ==> s.elems[id].useCount == 0
  }

  /** The destructor has emptied the buckets before `b`. */
  ghost predicate Emptying(c: Config, s: State, b: nat) {
    Wf(c, s) && Unlocked(s) && b <= |s.buckets| && forall d :: 0 <= d < b ==> s.buckets[d] == []
  }

  function DestroyFrom(c: Config, s: State, b: nat): (r: State)
    requires Emptying(c, s, b)
    ensures Wf(c, r) && |r.buckets| == |s.buckets| && r.nextId == s.nextId
    ensures forall d :: 0 <= d < |r.buckets| ==> r.buckets[d] == []
    decreases |s.buckets| - b, if b < |s.buckets| then |s.buckets[b]| else 0
  {
    hide Wf, Home;
    if b == |s.buckets| then s
    else if s.buckets[b] == [] then DestroyFrom(c, s, b + 1)
    else
      ChainWf(c, s, b);
      DestroyFrom(c, Discard(c, s, s.buckets[b][0]), b)
  }

  lemma DiscardUnlocked(c: Config, s: State, id: Id)
    requires Wf(c, s) && id in s.elems
    ensures Unlocked(s) ==> Unlocked(Discard(c, s, id))
  {
    hide Wf;
  }

  /** Destroying the head of bucket `b` empties no other bucket and locks nothing. */
  lemma DestroyHead(c: Config, s: State, b: nat)
    requires Emptying(c, s, b) && b < |s.buckets| && s.buckets[b] != []
    ensures s.buckets[b][0] in s.elems
    ensures var r := Discard(c, s, s.buckets[b][0]);
      && Emptying(c, r, b) && |r.buckets| == |s.buckets| && |r.buckets[b]| < |s.buckets[b]|
      && DestroyFrom(c, s, b) == DestroyFrom(c, r, b)
  {
    hide Wf, Home;
    ChainWf(c, s, b);
    DiscardUnlocked(c, s, s.buckets[b][0]);
  }

  lemma DestroyNext(c: Config, s: State, b: nat)
    ensures Emptying(c, s, b) && b < |s.buckets| && s.buckets[b] == [] ==>
      Emptying(c, s, b + 1) && DestroyFrom(c, s, b + 1) == DestroyFrom(c, s, b)
    ensures Emptying(c, s, b) && b == |s.buckets| ==> DestroyFrom(c, s, b) == s
  {
    hide Wf, Unlocked;
  }

  lemma InSomeBucket(c: Config, s: State, id: Id)
    ensures Wf(c, s) && id in s.elems ==> exists b :: 0 <= b < |s.buckets| && id in s.buckets[b]
  {
    hide Home, Linked, Coupled, Accounted;
    if Wf(c, s) && id in s.elems {
      assert id in s.buckets[Home(c, |s.buckets|, s.elems[id].key)];
    }
  }

  /** Destroying a cache on which no lock is held leaves no element, no chain and no queue, and every element that was
      ever created has then been destroyed exactly once. */
  lemma DestroysAll(c: Config, s: State)
    requires Wf(c, s) && Unlocked(s)
    ensures var r := DestroyFrom(c, s, 0);
      && r.elems == map[] && r.size == 0 && r.queue.All() == []
      && (forall d :: 0 <= d < |r.buckets| ==> r.buckets[d] == [])
      && NoDup(r.freed) && |r.freed| == r.nextId == s.nextId && forall id :: id in r.freed ==> id < r.nextId
  {
    hide Home, Coupled, DestroyFrom;
    var r := DestroyFrom(c, s, 0);
    forall id ensures id !in r.elems {
      InSomeBucket(c, r, id);
    }
    assert r.elems == map[];
    NoDupWithin(r.queue.All(), r.elems.Keys);
  }
}
