/** Reference-counting locks that keep an element from being deleted. */
module DeleteLock {

  class Counted {
    var useCount: nat

    constructor ()
      ensures useCount == 0
    {
      useCount := 0;
    }
  }

  /** Which element each lock points at. */
  ghost function Targets(all: set<StoreDeleteLock>): map<StoreDeleteLock, Counted?>
    reads all
  {
    map l | l in all :: l.ptr
  }

  ghost function HolderSet(m: map<StoreDeleteLock, Counted?>, e: Counted): set<StoreDeleteLock> {
    set l | l in m && m[l] == e
  }

  /** The number of locks that hold element `e`. */
  ghost function Holders(m: map<StoreDeleteLock, Counted?>, e: Counted): nat {
    |HolderSet(m, e)|
  }

  /** The counter of every element is the number of locks that hold it. */
  ghost predicate Accounted(all: set<StoreDeleteLock>, elems: set<Counted>)
    reads all, elems
  {
    && (forall l :: l in all ==> l.ptr == null || l.ptr in elems)
    && (forall e :: e in elems ==> e.useCount == Holders(Targets(all), e))
  }

  lemma OthersSame(m: map<StoreDeleteLock, Counted?>, l: StoreDeleteLock, x: Counted?, e: Counted)
    ensures HolderSet(m[l := x], e) - {l} == HolderSet(m, e) - {l}
  {
  }

  lemma CountOne(m: map<StoreDeleteLock, Counted?>, l: StoreDeleteLock, e: Counted)
    ensures Holders(m, e) == |HolderSet(m, e) - {l}| + if l in m && m[l] == e then 1 else 0
  {
    assert l in HolderSet(m, e) <==> l in m && m[l] == e;
  }

  /** Pointing lock `l` at `x` takes one holder from its previous target and gives one to `x`. */
  lemma Repointed(m: map<StoreDeleteLock, Counted?>, l: StoreDeleteLock, x: Counted?, e: Counted)
    ensures Holders(m[l := x], e)
         == Holders(m, e) - (if l in m && m[l] == e then 1 else 0) + (if x == e then 1 else 0)
  {
    hide HolderSet, Holders;
    OthersSame(m, l, x, e);
    CountOne(m, l, e);
    CountOne(m[l := x], l, e);
  }

  lemma Removed(m: map<StoreDeleteLock, Counted?>, l: StoreDeleteLock, e: Counted)
    requires l in m && m[l] == null
    ensures Holders(m - {l}, e) == Holders(m, e)
  {
    assert HolderSet(m - {l}, e) == HolderSet(m, e);
  }

  class StoreDeleteLock {
    var ptr: Counted?

    /** Locks an element; null makes an empty lock. */
    constructor (target: Counted?, ghost all: set<StoreDeleteLock>, ghost elems: set<Counted>)
      requires Accounted(all, elems) && (target == null || target in elems)
      modifies elems
      ensures ptr == target && Accounted(all + {this}, elems)
    {
      ptr := target;
      new;
      if ptr != null {
        ptr.useCount := ptr.useCount + 1;
      }
      assert Targets(all + {this}) == old(Targets(all))[this := ptr];
      forall e | e in elems ensures e.useCount == Holders(Targets(all + {this}), e) {
        Repointed(old(Targets(all)), this, ptr, e);
      }
    }

    /** A copy holds the same element. */
    constructor CopyOf(other: StoreDeleteLock, ghost all: set<StoreDeleteLock>, ghost elems: set<Counted>)
      requires Accounted(all, elems) && other in all
      modifies elems
      ensures ptr == other.ptr && Accounted(all + {this}, elems)
    {
      ptr := other.ptr;
      new;
      if ptr != null {
        ptr.useCount := ptr.useCount + 1;
      }
      assert Targets(all + {this}) == old(Targets(all))[this := ptr];
      forall e | e in elems ensures e.useCount == Holders(Targets(all + {this}), e) {
        Repointed(old(Targets(all)), this, ptr, e);
      }
    }

    /** A move takes the element over and leaves the source empty; no counter changes. */
    constructor MoveOf(other: StoreDeleteLock, ghost all: set<StoreDeleteLock>, ghost elems: set<Counted>)
      requires Accounted(all, elems) && other in all
      modifies other
      ensures ptr == old(other.ptr) && other.ptr == null && Accounted(all + {this}, elems)
    {
      ptr := other.ptr;
      new;
      other.ptr := null;
      ghost var m: map<StoreDeleteLock, Counted?> := old(Targets(all));
      ghost var n: map<StoreDeleteLock, Counted?> := m[this := ptr];
      assert Targets(all + {this}) == n[other := null];
      forall e | e in elems ensures e.useCount == Holders(Targets(all + {this}), e) {
        Repointed(m, this, ptr, e);
        Repointed(n, other, null, e);
      }
    }

    /** Copy assignment; assigning a lock to itself changes nothing. */
    method CopyAssign(other: StoreDeleteLock, ghost all: set<StoreDeleteLock>, ghost elems: set<Counted>)
      requires Accounted(all, elems) && this in all && other in all
      modifies this, elems
      ensures ptr == old(other.ptr) && Accounted(all, elems)
    {
      if other != this {
        Reset(all, elems);
        Point(other.ptr, all, elems);
      }
    }

    /** Lets an empty lock hold `target`. */
    method Point(target: Counted?, ghost all: set<StoreDeleteLock>, ghost elems: set<Counted>)
      requires Accounted(all, elems) && this in all && ptr == null && (target == null || target in elems)
      modifies this, elems
      ensures ptr == target && Accounted(all, elems)
    {
      ptr := target;
      if ptr != null {
        ptr.useCount := ptr.useCount + 1;
      }
      assert Targets(all) == old(Targets(all))[this := ptr];
      forall e | e in elems ensures e.useCount == Holders(Targets(all), e) {
        Repointed(old(Targets(all)), this, ptr, e);
      }
    }

    /** Move assignment; assigning a lock to itself changes nothing. */
    method MoveAssign(other: StoreDeleteLock, ghost all: set<StoreDeleteLock>, ghost elems: set<Counted>)
      requires Accounted(all, elems) && this in all && other in all
      modifies this, other, elems
      ensures ptr == old(other.ptr) && Accounted(all, elems)
      ensures other != this ==> other.ptr == null
    {
      if other != this {
        Reset(all, elems);
        TakeOver(other, all, elems);
      }
    }

    /** Lets an empty lock take the element of another lock over. */
    method TakeOver(other: StoreDeleteLock, ghost all: set<StoreDeleteLock>, ghost elems: set<Counted>)
      requires Accounted(all, elems) && this in all && other in all && other != this && ptr == null
      modifies this, other
      ensures ptr == old(other.ptr) && other.ptr == null && Accounted(all, elems)
    {
      ptr := other.ptr;
      other.ptr := null;
      ghost var m: map<StoreDeleteLock, Counted?> := old(Targets(all));
      ghost var n: map<StoreDeleteLock, Counted?> := m[this := ptr];
      assert Targets(all) == n[other := null];
      forall e | e in elems ensures e.useCount == Holders(Targets(all), e) {
        Repointed(m, this, ptr, e);
        Repointed(n, other, null, e);
      }
    }

    /** Releases the element. The counter of a held element is positive, so it never underflows. */
    method Reset(ghost all: set<StoreDeleteLock>, ghost elems: set<Counted>)
      requires Accounted(all, elems) && this in all
      modifies this, elems
      ensures ptr == null && Accounted(all, elems)
      ensures forall l :: l in all && l != this ==> l.ptr == old(l.ptr)
      ensures forall e :: e in elems ==> e.useCount == old(e.useCount) - if e == old(ptr) then 1 else 0
    {
      if ptr != null {
        var e := ptr;
        ptr := null;
        Repointed(old(Targets(all)), this, null, e);
        e.useCount := e.useCount - 1;
      }
      assert Targets(all) == old(Targets(all))[this := null];
      forall e | e in elems ensures e.useCount == Holders(Targets(all), e) {
        Repointed(old(Targets(all)), this, null, e);
      }
    }
  }

  /** Destroying an empty lock leaves the accounts in order; the destructor resets the lock first. */
  lemma Destroyed(all: set<StoreDeleteLock>, elems: set<Counted>, l: StoreDeleteLock)
    requires Accounted(all, elems) && l in all && l.ptr == null
    ensures Accounted(all - {l}, elems)
  {
    assert Targets(all - {l}) == Targets(all) - {l};
    forall e | e in elems ensures e.useCount == Holders(Targets(all - {l}), e) {
      Removed(Targets(all), l, e);
    }
  }

  /** An element may be deleted (its counter is zero) iff no lock holds it. */
  lemma DeletableIff(all: set<StoreDeleteLock>, elems: set<Counted>, e: Counted)
    requires Accounted(all, elems) && e in elems
    ensures e.useCount == 0 <==> forall l :: l in all ==> l.ptr != e
  {
    var holders := HolderSet(Targets(all), e);
    assert forall l :: l in all ==> (l in holders <==> l.ptr == e);
    assert holders != {} ==> exists l :: l in holders;
  }
}
