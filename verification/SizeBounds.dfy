/** How many values the cache keeps alive. */
module SizeBounds {
  import opened Sequences
  import opened ElementState
  import opened CacheState
  import opened Evolution
  import opened Operations

  /** The value that a slot owns a reference to; null if there is none. */
  function Owned(futs: map<Fut, Option<Outcome>>, x: Slot): Ptr {
    match x
    case Strong(v) => v
    case Pending(f, _, _) => if f in futs && futs[f].Some? && futs[f].value.Done? then futs[f].value.v else Null
    case _ => Null
  }

  lemma OwnedHolds(futs: map<Fut, Option<Outcome>>, x: Slot, v: Ptr)
    ensures Holds(futs, x, v) <==> v != Null && Owned(futs, x) == v
  {
  }

  /** The values that some of the elements own. */
  ghost function ValuesOf(s: State, ids: set<Id>): set<Ptr>
    requires ids <= s.elems.Keys
  {
    (set id | id in ids :: Owned(s.futs, s.elems[id].slot)) - {Null}
  }

  lemma {:induction false} AtMostOneEach(s: State, ids: set<Id>)
    requires ids <= s.elems.Keys
    ensures |ValuesOf(s, ids)| <= |ids|
  {
    if ids != {} {
      var id :| id in ids;
      AtMostOneEach(s, ids - {id});
      assert ValuesOf(s, ids) == ValuesOf(s, ids - {id}) + ({Owned(s.futs, s.elems[id].slot)} - {Null});
    }
  }

  /** All values that elements own. */
  ghost function HeldValues(s: State): (r: set<Ptr>)
    ensures forall v :: v in r <==> exists id :: id in s.elems && Holds(s.futs, s.elems[id].slot, v)
  {
    forall v ensures v in ValuesOf(s, s.elems.Keys) <==>
        exists id :: id in s.elems && Holds(s.futs, s.elems[id].slot, v)
    {
      if id :| id in s.elems && Holds(s.futs, s.elems[id].slot, v) {
        OwnedHolds(s.futs, s.elems[id].slot, v);
        assert Owned(s.futs, s.elems[id].slot) in ValuesOf(s, s.elems.Keys);
      }
      if v in ValuesOf(s, s.elems.Keys) {
        var id :| id in s.elems.Keys && Owned(s.futs, s.elems[id].slot) == v;
        OwnedHolds(s.futs, s.elems[id].slot, v);
      }
    }
    ValuesOf(s, s.elems.Keys)
  }

  ghost function LinkedOnes(s: State): set<Id> {
    set id | id in s.elems && id in s.queue.All()
  }

  /** The elements that were evicted while pending and whose future has been settled since: each owns a value although
      it is not linked. */
  ghost function Strays(s: State): set<Id> {
    set id | id in s.elems && s.elems[id].slot.Pending? && !s.elems[id].slot.strong &&
        Owned(s.futs, s.elems[id].slot) != Null
  }

  /** Those of them that nobody will resolve, because their creation outlasted the age limit. */
  ghost function Lost(s: State): set<Id> {
    set id | id in Strays(s) && s.elems[id].useCount == 0
  }

  /** The values that are alive through elements alone: no outside holder, no section and no waiting thread has them. */
  ghost function OnlyHere(s: State): set<Ptr> {
    set v | v in HeldValues(s) && v !in s.held && v !in s.pinned
      && !exists t :: t in s.waiters && Completed(s.futs, s.waiters[t].fut, v)
  }

  lemma OnlyHereAlive(s: State, v: Ptr)
    ensures v in OnlyHere(s) <==>
      && Alive(s, v) && v !in s.held && v !in s.pinned
      && !exists t :: t in s.waiters && Completed(s.futs, s.waiters[t].fut, v)
  {
  }

  /** Linked elements are not weak and unlinked ones not strong. The values that elements own are at most `maxSize` plus
      one for each stray; those alive through elements alone are at most `maxSize` plus one for each lost stray. */
  ghost predicate ValuesBounded(c: Config, s: State) {
    && s.queue.Balanced()
    && (forall id :: id in s.elems ==>
          && (IsStrong(s.elems[id].slot) ==> id in s.queue.All())
          && (IsWeak(s.elems[id].slot) ==> id !in s.queue.All()))
    && (forall id :: id in Lost(s) ==> MaxAged(c, s, s.elems[id]))
    && (c.maxSize.Some? ==>
          && |s.queue.All()| <= c.maxSize.value
          && |HeldValues(s)| <= c.maxSize.value + |Strays(s)|
          && |OnlyHere(s)| <= c.maxSize.value + |Lost(s)|
          && (c.maxAge.None? ==> |OnlyHere(s)| <= c.maxSize.value))
  }

  /** An element that owns a value is linked or a stray. */
  lemma OwnersSplit(c: Config, s: State, id: Id, v: Ptr)
    requires Coupled(s) && id in s.elems && Holds(s.futs, s.elems[id].slot, v)
    ensures Owned(s.futs, s.elems[id].slot) == v != Null
    ensures id in LinkedOnes(s) || id in Strays(s)
  {
    OwnedHolds(s.futs, s.elems[id].slot, v);
  }

  lemma HeldSplit(c: Config, s: State)
    requires Coupled(s)
    ensures HeldValues(s) == ValuesOf(s, LinkedOnes(s)) + ValuesOf(s, Strays(s))
  {
    hide Coupled;
    forall v | v in HeldValues(s) ensures v in ValuesOf(s, LinkedOnes(s)) + ValuesOf(s, Strays(s)) {
      var id :| id in s.elems && Holds(s.futs, s.elems[id].slot, v);
      OwnersSplit(c, s, id, v);
    }
    forall v | v in ValuesOf(s, LinkedOnes(s)) + ValuesOf(s, Strays(s)) ensures v in HeldValues(s) {
      var id :| id in s.elems && Owned(s.futs, s.elems[id].slot) == v;
      OwnedHolds(s.futs, s.elems[id].slot, v);
    }
  }

  lemma SumBound(a: set<Ptr>, b: set<Ptr>)
    ensures |a + b| <= |a| + |b|
    ensures |a + b| == |a| + |b - a|
  {
    assert a + b == a + (b - a);
  }

  /** A value of a stray that still has its creator is awaited by that creator. */
  lemma StrayAwaited(c: Config, s: State, id: Id)
    requires Locks(c, s) && id in Strays(s) && s.elems[id].useCount > 0
    ensures exists t :: t in s.waiters && Completed(s.futs, s.waiters[t].fut, Owned(s.futs, s.elems[id].slot))
  {
    var t :| Creates(s, t, id);
    assert Completed(s.futs, s.waiters[t].fut, Owned(s.futs, s.elems[id].slot));
  }

  lemma OnlyHereSplit(c: Config, s: State)
    requires Coupled(s) && Locks(c, s)
    ensures OnlyHere(s) <= ValuesOf(s, LinkedOnes(s)) + ValuesOf(s, Lost(s))
  {
    hide Coupled;
    forall v | v in OnlyHere(s) ensures v in ValuesOf(s, LinkedOnes(s)) + ValuesOf(s, Lost(s)) {
      var id :| id in s.elems && Holds(s.futs, s.elems[id].slot, v);
      OwnersSplit(c, s, id, v);
      if id in Strays(s) && s.elems[id].useCount > 0 {
        StrayAwaited(c, s, id);
      }
    }
  }

  lemma SubsetSize(a: set<Ptr>, b: set<Ptr>)
    requires a <= b
    ensures |a| <= |b|
  {
    assert b == a + (b - a);
  }

  lemma LinkedBound(s: State)
    requires Linked(s)
    ensures |ValuesOf(s, LinkedOnes(s))| <= |s.queue.All()|
  {
    hide ValuesOf;
    AtMostOneEach(s, LinkedOnes(s));
    NoDupCovers(s.queue.All(), LinkedOnes(s));
  }

  lemma LostAged(c: Config, s: State)
    requires Locks(c, s)
    ensures forall id :: id in Lost(s) ==> MaxAged(c, s, s.elems[id])
    ensures c.maxAge.None? ==> Lost(s) == {}
  {
  }

  lemma CountsBound(c: Config, s: State)
    requires Linked(s) && Coupled(s) && Locks(c, s)
    ensures |HeldValues(s)| <= |s.queue.All()| + |Strays(s)|
    ensures |OnlyHere(s)| <= |s.queue.All()| + |Lost(s)|
  {
    HeldSplit(c, s);
    OnlyHereSplit(c, s);
    LinkedBound(s);
    hide Linked, Coupled, Locks, ValuesOf, HeldValues, OnlyHere, LinkedOnes;
    var linked := ValuesOf(s, LinkedOnes(s));
    SumBound(linked, ValuesOf(s, Strays(s)));
    SumBound(linked, ValuesOf(s, Lost(s)));
    SubsetSize(OnlyHere(s), linked + ValuesOf(s, Lost(s)));
    AtMostOneEach(s, Strays(s));
    AtMostOneEach(s, Lost(s));
  }

  lemma SizeBound(c: Config, s: State)
    requires Inv(c, s)
    ensures ValuesBounded(c, s)
  {
    hide Known, Unique, Chained, Accounted, Linked, Locks, HeldValues, OnlyHere, Strays, Lost;
    CountsBound(c, s);
    LostAged(c, s);
  }
}
