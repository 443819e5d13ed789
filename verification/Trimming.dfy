/** What the decorators cut off the cold end of the queue when an element is hit or created. */
module Trimming {
  import opened Sequences
  import opened QueueModel
  import opened ElementState
  import opened CacheState
  import opened Maintenance
  import opened Evolution
  import opened Operations
  import opened Pruning

  /** The first `max_size` elements. */
  function Limited(c: Config, l: seq<Id>): seq<Id> {
    if c.maxSize.Some? then Kept(l, c.maxSize.value) else l
  }

  /** The access deadline of element `x`; that of `id`, which is hit or created, is the one it has afterwards. */
  function DeadlineOf(s: State, r: State, id: Id, x: Id): int {
    if x == id && id in r.elems then r.elems[id].access else if x in s.elems then s.elems[x].access else 0
  }

  /** The cleanup does not get past `x`: it is the element that is hit or created, or locked, or alive. */
  ghost predicate Firm(c: Config, s: State, id: Id, x: Id) {
    x == id || (x in s.elems && (s.elems[x].useCount > 0 || !Dead(c, s, s.elems[x])))
  }

  /** Element `x` was unlocked and has died and been erased. */
  ghost predicate Perished(c: Config, s: State, r: State, id: Id, x: Id) {
    x != id && x in s.elems && x !in r.elems && s.elems[x].useCount == 0 && Dead(c, r, s.elems[x])
  }

  /** The queue `q`, cut three times. The cleanup erases the dead elements behind position `m`, up to a firm one. The
      elements from `n` to `m` are cut because their access deadlines have passed, up to one whose deadline had not
      passed at the start. Of the rest at most `max_size` remain. */
  ghost predicate TrimmedAt(c: Config, s: State, r: State, id: Id, q: seq<Id>, l: seq<Id>, m: nat, n: nat) {
    && n <= m <= |q| && l == Limited(c, q[..n])
    && (forall i :: m <= i < |q| ==> Perished(c, s, r, id, q[i]))
    && (c.queued && m > 0 ==> Firm(c, s, id, q[m - 1]))
    && (n < m ==> c.accessExpire.Some?) && (forall i :: n <= i < m ==> DeadlineOf(s, r, id, q[i]) < r.now)
    && (c.accessExpire.Some? && n > 0 ==> DeadlineOf(s, r, id, q[n - 1]) >= s.now)
  }

  // ----- the three cuts

  lemma {:induction false} CleanupErases(c: Config, s: State, x: Id)
    requires Wf(c, s) && x in s.queue.All() && x !in Cleanup(c, s).queue.All()
    ensures x !in Cleanup(c, s).elems
    decreases |s.queue.All()|
  {
    hide Wf, Tends, SameAccess, EraseIfExpired, Queue.Delete, Queue.Coldest, Remove;
    LinkedExists(c, s);
    LinkedNoDup(c, s);
    var id := s.queue.Coldest();
    var e := EraseIfExpired(c, s, id);
    if e.done {
      RemoveAt(s.queue.All(), |s.queue.All()| - 1);
      StaysGone(c, e.s, Cleanup(c, e.s), id);
      if x != id {
        CleanupErases(c, e.s, x);
      }
    }
  }

  /** The cleanup, seen from the state before it. */
  lemma CleanupCut(c: Config, s: State, id: Id)
    requires Wf(c, s) && id in s.elems && s.elems[id].useCount > 0
    ensures var r := Cleanup(c, s); var q := s.queue.All(); var m := |r.queue.All()|;
      && m <= |q| && r.queue.All() == q[..m] && id in r.elems
      && (forall i :: m <= i < |q| ==> Perished(c, s, r, id, q[i]))
      && (m > 0 ==> Firm(c, s, id, q[m - 1]))
      && (forall x :: x in r.elems ==> x in s.elems && r.elems[x].access == s.elems[x].access)
  {
    hide Wf, Tends, SameAccess, Dead, Cleanup;
    var r := Cleanup(c, s);
    var q, m := s.queue.All(), |r.queue.All()|;
    LinkedExists(c, s);
    forall i | m <= i < |q| ensures Perished(c, s, r, id, q[i]) {
      LinkedNoDup(c, s);
      CutTail(q, m, i);
      CleanupErases(c, s, q[i]);
      MissingIsErased(c, s, r, id, q[i]);
    }
    if m > 0 {
      CleanupStops(c, s);
      FirmBefore(c, s, r, id, q[m - 1]);
    }
    KeepsElements(c, s, r, id);
  }

  lemma CutTail(q: seq<Id>, m: nat, i: nat)
    requires NoDup(q) && m <= i < |q|
    ensures q[i] !in q[..m] && q[i] in q
  {
  }

  lemma MissingIsErased(c: Config, s: State, r: State, id: Id, x: Id)
    requires Tends(c, s, r) && x in s.elems && x !in r.elems && id in s.elems && s.elems[id].useCount > 0
    ensures Perished(c, s, r, id, x)
  {
  }

  /** What is locked or alive afterwards was so before. */
  lemma FirmBefore(c: Config, s: State, r: State, id: Id, x: Id)
    requires Tends(c, s, r) && x in r.elems && (r.elems[x].useCount != 0 || !Dead(c, r, r.elems[x]))
    ensures Firm(c, s, id, x)
  {
    if Dead(c, s, s.elems[x]) {
      DeadStays(c, s, r, s.elems[x], r.elems[x]);
    }
  }

  lemma KeepsElements(c: Config, s: State, r: State, id: Id)
    requires Tends(c, s, r) && SameAccess(s, r) && id in s.elems && s.elems[id].useCount > 0
    ensures id in r.elems
    ensures forall x :: x in r.elems ==> x in s.elems && r.elems[x].access == s.elems[x].access
  {
  }

  /** The access-expire decorator on a hit: the deadline of the element is renewed, and what is stale is cut. */
  lemma AccessHitCut(c: Config, s: State, id: Id)
    requires Wf(c, s) && id in s.elems && s.elems[id].useCount > 0
    ensures var r := AccessOnHit(c, s, id); var q := s.queue.All(); var n := |r.queue.All()|;
      && n <= |q| && r.queue.All() == q[..n] && id in r.elems && s.now <= r.now
      && (n < |q| ==> c.accessExpire.Some?)
      && (forall i :: n <= i < |q| ==> q[i] != id && DeadlineOf(s, r, id, q[i]) < r.now)
      && (c.accessExpire.Some? && n > 0 ==> DeadlineOf(s, r, id, q[n - 1]) >= s.now)
      && (forall x :: x in r.elems && x != id ==> x in s.elems && r.elems[x].access == s.elems[x].access)
      && (c.accessExpire.Some? ==> s.now + c.accessExpire.value <= r.elems[id].access <= r.now + c.accessExpire.value)
      && (c.accessExpire.None? ==> r == s)
  {
    hide Wf, StaleCut, ShrinkStale, Observe, Dead, SameAccess;
    if c.accessExpire.Some? {
      var s1 := Observe(c, s);
      var s2 := Touch(s1, id, s1.now + c.accessExpire.value);
      TouchTends(c, s1, id, s1.now + c.accessExpire.value);
      var r := ShrinkStale(c, s2, s1.now);
      KeepsElements(c, s2, r, id);
      LinkedExists(c, s2);
      StaleParts(c, s2, r.queue.All(), s1.now);
    }
  }

  lemma StaleParts(c: Config, s: State, q: seq<Id>, now: int)
    requires StaleCut(s, q, now)
    ensures |q| <= |s.queue.All()| && q == s.queue.All()[..|q|]
    ensures forall i :: |q| <= i < |s.queue.All()| ==>
      s.queue.All()[i] in s.elems && s.elems[s.queue.All()[i]].access < now
    ensures q != [] ==> s.queue.All()[|q| - 1] in s.elems && s.elems[s.queue.All()[|q| - 1]].access >= now
  {
  }

  /** The same decorator on a creation. */
  lemma AccessCreateCut(c: Config, s: State, id: Id)
    requires Wf(c, s) && id in s.elems && s.elems[id].useCount > 0
    ensures var r := AccessOnCreate(c, s); var q := s.queue.All(); var n := |r.queue.All()|;
      && n <= |q| && r.queue.All() == q[..n] && id in r.elems && s.now <= r.now
      && (n < |q| ==> c.accessExpire.Some?) && (forall i :: n <= i < |q| ==> DeadlineOf(s, r, id, q[i]) < r.now)
      && (c.accessExpire.Some? && n > 0 ==> DeadlineOf(s, r, id, q[n - 1]) >= s.now)
      && (forall x :: x in r.elems ==> x in s.elems && r.elems[x].access == s.elems[x].access)
  {
    hide Wf, StaleCut, ShrinkStale, Observe, Dead, SameAccess;
    if c.accessExpire.Some? {
      var s1 := Observe(c, s);
      var r := ShrinkStale(c, s1, s1.now);
      KeepsElements(c, s1, r, id);
      LinkedExists(c, s1);
      StaleParts(c, s1, r.queue.All(), s1.now);
    }
  }

  lemma MaxSizeCut(c: Config, s: State, id: Id)
    requires Wf(c, s) && id in s.elems && s.elems[id].useCount > 0
    ensures var r := ApplyMaxSize(c, s);
      && r.queue.All() == Limited(c, s.queue.All()) && id in r.elems
      && (forall x :: x in r.elems ==> x in s.elems && r.elems[x].access == s.elems[x].access)
  {
    hide Wf, Dead, Kept;
    var r := ApplyMaxSize(c, s);
    if c.maxSize.Some? {
      KeepsElements(c, s, r, id);
    }
  }

  // ----- the cuts one after the other

  /** All elements but `id` are as they were. */
  ghost predicate OthersSame(s: State, s': State, id: Id) {
    s'.elems.Keys == s.elems.Keys && forall x :: x in s.elems && x != id ==> s'.elems[x] == s.elems[x]
  }

  lemma PerishedLater(c: Config, s: State, h: State, s1: State, r: State, id: Id, x: Id)
    requires Tends(c, s1, r) && OthersSame(s, h, id)
    ensures Perished(c, h, s1, id, x) ==> Perished(c, s, r, id, x)
  {
    if Perished(c, h, s1, id, x) {
      DeadStays(c, s1, r, h.elems[x], h.elems[x]);
    }
  }

  lemma FirmEarlier(c: Config, s: State, h: State, id: Id, x: Id)
    requires Tends(c, s, h) && OthersSame(s, h, id)
    ensures Firm(c, h, id, x) ==> Firm(c, s, id, x)
  {
    if Firm(c, h, id, x) && x != id && Dead(c, s, s.elems[x]) {
      DeadStays(c, s, h, s.elems[x], h.elems[x]);
    }
  }

  /** All access deadlines but that of `id` are the same for the elements that are left. */
  ghost predicate AccessKept(s: State, r: State, id: Id) {
    forall x :: x in r.elems && x != id ==> x in s.elems && r.elems[x].access == s.elems[x].access
  }

  /** `s` becomes `h` when `id` is hit; the cleanup leads to `s1`, the access decorator to `s2`, the size limit to
      `r`. */
  lemma ThreeCuts(c: Config, s: State, h: State, s1: State, s2: State, r: State, id: Id)
    requires Tends(c, s, h) && Tends(c, h, s1) && Tends(c, s1, s2) && Tends(c, s2, r)
    requires OthersSame(s, h, id) && Linked(s1) && id in r.elems && id in s2.elems
    requires var q := h.queue.All(); var m := |s1.queue.All()|;
      && m <= |q| && s1.queue.All() == q[..m]
      && (forall i :: m <= i < |q| ==> Perished(c, h, s1, id, q[i]))
      && (c.queued && m > 0 ==> Firm(c, h, id, q[m - 1]))
      && AccessKept(h, s1, id)
    requires var q := s1.queue.All(); var n := |s2.queue.All()|;
      && n <= |q| && s2.queue.All() == q[..n]
      && (n < |q| ==> c.accessExpire.Some?) && (forall i :: n <= i < |q| ==> DeadlineOf(s1, s2, id, q[i]) < s2.now)
      && (c.accessExpire.Some? && n > 0 ==> DeadlineOf(s1, s2, id, q[n - 1]) >= s1.now)
    requires r.queue.All() == Limited(c, s2.queue.All()) && r.elems[id].access == s2.elems[id].access
    ensures TrimmedAt(c, s, r, id, h.queue.All(), r.queue.All(), |s1.queue.All()|, |s2.queue.All()|)
  {
    hide Dead, Limited, Firm, Perished, Tends, DeadlineOf, OthersSame, AccessKept;
    var q, m, n := h.queue.All(), |s1.queue.All()|, |s2.queue.All()|;
    assert s2.queue.All() == q[..n];
    TendsTrans(c, s1, s2, r);
    TendsRefl(c, r);
    TimePasses(c, s, h, s1, s2, r);
    forall i | m <= i < |q| ensures Perished(c, s, r, id, q[i]) {
      SelfSame(h, id);
      PerishedLater(c, h, h, s1, r, id, q[i]);
      PerishedLater(c, s, h, r, r, id, q[i]);
    }
    if c.queued && m > 0 {
      FirmEarlier(c, s, h, id, q[m - 1]);
    }
    forall i | n <= i < m ensures DeadlineOf(s, r, id, q[i]) < r.now {
      assert s1.queue.All()[i] == q[i];
      DeadlineSame(s, h, s1, s2, r, id, q[i]);
    }
    if c.accessExpire.Some? && n > 0 {
      assert s1.queue.All()[n - 1] == q[n - 1];
      DeadlineSame(s, h, s1, s2, r, id, q[n - 1]);
    }
  }

  lemma SelfSame(s: State, id: Id)
    ensures OthersSame(s, s, id)
  {
  }

  lemma TimePasses(c: Config, s: State, h: State, s1: State, s2: State, r: State)
    requires Tends(c, s, h) && Tends(c, h, s1) && Tends(c, s1, s2) && Tends(c, s2, r)
    ensures s.now <= s1.now && s2.now <= r.now
  {
  }

  lemma DeadlineSame(s: State, h: State, s1: State, s2: State, r: State, id: Id, x: Id)
    requires OthersSame(s, h, id) && AccessKept(h, s1, id) && Linked(s1) && x in s1.queue.All()
    requires id in r.elems && id in s2.elems && r.elems[id].access == s2.elems[id].access
    ensures DeadlineOf(s, r, id, x) == DeadlineOf(s1, s2, id, x)
  {
  }

  /** The queue `q` after element `id` has been hit: first if it was linked, between the halves if it was not. */
  function Moved(q: Queue<Id>, id: Id): seq<Id> {
    if id in q.All() then [id] + Remove(q.All(), id) else q.All()[..|q.hot|] + [id] + q.All()[|q.hot|..]
  }

  function Place(q: Queue<Id>, id: Id): nat {
    if id in q.All() then 0 else |q.hot|
  }

  lemma MovedPlace(q: Queue<Id>, id: Id)
    requires NoDup(q.All())
    ensures Place(q, id) < |Moved(q, id)| && Moved(q, id)[Place(q, id)] == id
    ensures forall i :: 0 <= i < |Moved(q, id)| && i != Place(q, id) ==> Moved(q, id)[i] != id
  {
    RemoveNoDup(q.All(), id);
  }

  lemma HitQueueMoves(c: Config, s: State, id: Id)
    requires Wf(c, s) && Secured(s, id)
    ensures var h := HitQueue(c, s, id);
      && h.queue.All() == Moved(s.queue, id) && OthersSame(s, h, id)
      && id in h.elems && h.elems[id].useCount > 0 && h.elems[id].access == s.elems[id].access
  {
    hide Chained, Accounted, Linked, Alive, Interfere;
    SecuredLinks(c, s, id);
  }

  /** All callbacks of a hit. The element that is hit is not cut for being stale. */
  lemma OnHitTrims(c: Config, s: State, id: Id)
    requires Wf(c, s) && Secured(s, id) && c.queued
    ensures var r := OnHit(c, s, id); var q := Moved(s.queue, id);
      && id in r.elems && AccessKept(s, r, id) && s.now <= r.now
      && (exists m: nat, n: nat :: TrimmedAt(c, s, r, id, q, r.queue.All(), m, n) && Place(s.queue, id) < n)
      && (c.accessExpire.Some? ==> s.now + c.accessExpire.value <= r.elems[id].access <= r.now + c.accessExpire.value)
  {
    hide Wf, Dead, Limited, Perished, Firm, DeadlineOf, TrimmedAt;
    hide HitQueue, Cleanup, AccessOnHit, ApplyMaxSize, Moved, Place, Tends;
    HitQueueMoves(c, s, id);
    var h := HitQueue(c, s, id);
    var s1 := Cleanup(c, h);
    CleanupCut(c, h, id);
    LockedStays(c, h, s1, id);
    var s2 := AccessOnHit(c, s1, id);
    AccessHitCut(c, s1, id);
    LockedStays(c, s1, s2, id);
    var r := ApplyMaxSize(c, s2);
    MaxSizeCut(c, s2, id);
    WfLinked(c, s1);
    ThreeCuts(c, s, h, s1, s2, r, id);
    WfLinked(c, s);
    MovedPlace(s.queue, id);
    TimePasses(c, s, h, s1, s2, r);
    NotCut(c, h, s1, s2, id, Place(s.queue, id));
    AccessChain(s, h, s1, s2, r, id);
    assert TrimmedAt(c, s, r, id, h.queue.All(), r.queue.All(), |s1.queue.All()|, |s2.queue.All()|);
  }

  lemma NotCut(c: Config, h: State, s1: State, s2: State, id: Id, p: nat)
    requires var q := h.queue.All(); var m := |s1.queue.All()|;
      && p < |q| && q[p] == id && m <= |q| && s1.queue.All() == q[..m]
      && (forall i :: m <= i < |q| ==> Perished(c, h, s1, id, q[i]))
    requires forall i :: |s2.queue.All()| <= i < |s1.queue.All()| ==> s1.queue.All()[i] != id
    ensures p < |s2.queue.All()|
  {
    hide Queue.All;
  }

  lemma AccessChain(s: State, h: State, s1: State, s2: State, r: State, id: Id)
    requires OthersSame(s, h, id) && AccessKept(h, s1, id) && AccessKept(s1, s2, id) && AccessKept(s2, r, id)
    ensures AccessKept(s, r, id)
  {
  }

  lemma LockedStays(c: Config, s: State, r: State, id: Id)
    requires id in s.elems && s.elems[id].useCount > 0
    ensures Tends(c, s, r) ==> id in r.elems && r.elems[id].useCount > 0
  {
  }

  lemma WfLinked(c: Config, s: State)
    ensures Wf(c, s) ==> Linked(s)
  {
  }

  // ----- a creation

  lemma AfterInsertTrims(c: Config, s: State, id: Id)
    requires Wf(c, s) && id in s.elems && s.elems[id].useCount > 0
    ensures var r := AfterInsert(c, s); var q := s.queue.All();
      && id in r.elems && r.elems[id].access == s.elems[id].access && AccessKept(s, r, id) && s.now <= r.now
      && exists m: nat, n: nat :: TrimmedAt(c, s, r, id, q, r.queue.All(), m, n)
  {
    hide Wf, Dead, Limited, Perished, Firm, DeadlineOf, TrimmedAt, Cleanup, AccessOnCreate, ApplyMaxSize, Tends;
    SelfSame(s, id);
    TendsRefl(c, s);
    var s1 := if c.queued then Cleanup(c, s) else s;
    if c.queued {
      CleanupCut(c, s, id);
    }
    LockedStays(c, s, s1, id);
    var s2 := AccessOnCreate(c, s1);
    AccessCreateCut(c, s1, id);
    LockedStays(c, s1, s2, id);
    var r := ApplyMaxSize(c, s2);
    MaxSizeCut(c, s2, id);
    WfLinked(c, s1);
    ThreeCuts(c, s, s, s1, s2, r, id);
    TimePasses(c, s, s, s1, s2, r);
    AccessChain(s, s, s1, s2, r, id);
    assert TrimmedAt(c, s, r, id, s.queue.All(), r.queue.All(), |s1.queue.All()|, |s2.queue.All()|);
  }

  /** The same clauses hold relative to an earlier state with the same old elements, in which more was dead. */
  lemma TrimmedFrom(c: Config, s: State, s': State, r: State, id: Id, q: seq<Id>, l: seq<Id>, m: nat, n: nat)
    requires TrimmedAt(c, s', r, id, q, l, m, n) && s'.now == s.now && id in r.elems
    requires forall x :: x in q && x != id ==> x in s.elems && x in s'.elems && s'.elems[x] == s.elems[x]
    requires forall x :: x in q && x != id && Dead(c, s, s.elems[x]) ==> Dead(c, s', s'.elems[x])
    ensures TrimmedAt(c, s, r, id, q, l, m, n)
  {
    hide Dead, Limited;
    forall i | 0 <= i < |q| ensures Perished(c, s', r, id, q[i]) ==> Perished(c, s, r, id, q[i]) {
      assert q[i] in q;
    }
    forall i | 0 <= i < |q| ensures DeadlineOf(s, r, id, q[i]) == DeadlineOf(s', r, id, q[i]) {
      assert q[i] in q;
    }
    if m > 0 {
      assert q[m - 1] in q;
    }
  }

  /** An insertion revives no value that an element has. */
  lemma InsertDead(c: Config, s: State, k: Key, made: Made, at: int, x: Id)
    requires Wf(c, s) && Wf(c, Invent(s, made, Late(c, s, at))) && Known(s)
    requires !made.Throws? && Admissible(c, s, made)
    requires x in s.elems && Dead(c, s, s.elems[x])
    ensures var r := Insert(c, Invent(s, made, Late(c, s, at)), k, FirstSlot(made), at); Dead(c, r, s.elems[x])
  {
    InsertRevives(c, s, k, made, at);
    InsertFields(c, Invent(s, made, Late(c, s, at)), k, FirstSlot(made), at);
    assert KnownContent(s, Core(s.elems[x].slot));
    hide Wf, Known, Alive, Insert;
  }

  /** The old elements are as they were, and those that were dead still are. */
  lemma InsertOthers(c: Config, s: State, k: Key, made: Made, at: int)
    requires Wf(c, s) && Wf(c, Invent(s, made, Late(c, s, at))) && Known(s)
    requires !made.Throws? && Admissible(c, s, made)
    ensures var r := Insert(c, Invent(s, made, Late(c, s, at)), k, FirstSlot(made), at);
      && (forall x :: x in r.queue.All() && x != s.nextId ==> x in s.elems && r.elems[x] == s.elems[x])
      && (forall x :: x in r.queue.All() && x != s.nextId && Dead(c, s, s.elems[x]) ==> Dead(c, r, r.elems[x]))
  {
    hide Wf, Dead, Known, Insert, Admissible, Late, Home, Invent;
    var s1 := Invent(s, made, Late(c, s, at));
    InsertFields(c, s1, k, FirstSlot(made), at);
    var r := Insert(c, s1, k, FirstSlot(made), at);
    LinkedExists(c, r);
    InventKeeps(s, made, Late(c, s, at));
    forall x | x in r.queue.All() && x != s.nextId && Dead(c, s, s.elems[x]) ensures Dead(c, r, r.elems[x]) {
      InsertDead(c, s, k, made, at, x);
    }
  }

  lemma InventKeeps(s: State, made: Made, late: bool)
    ensures var r := Invent(s, made, late);
      && r.elems == s.elems && r.nextId == s.nextId && r.now == s.now
      && r.buckets == s.buckets && r.size == s.size && r.queue == s.queue && r.freed == s.freed
  {
  }

  /** A creation: the new element enters behind the hot ones, and the three cuts follow. */
  lemma CreateTrims(c: Config, s: State, k: Key, made: Made, at: int)
    requires Wf(c, s) && Known(s) && !made.Throws? && Admissible(c, s, made)
    ensures var r := Create(c, s, k, made, at); var id := s.nextId;
      var q := if c.queued then Moved(s.queue, id) else s.queue.All();
      && id in r.elems && AccessKept(s, r, id) && s.now <= r.now
      && (c.accessExpire.Some? ==> r.elems[id].access == at + c.accessExpire.value)
      && exists m: nat, n: nat :: TrimmedAt(c, s, r, id, q, r.queue.All(), m, n)
  {
    hide Wf, Dead, Known, TrimmedAt, AfterInsert, Insert, Admissible, Late, Home, Moved, AccessKept, Invent, Tends;
    var s1 := Invent(s, made, Late(c, s, at));
    InventKeeps(s, made, Late(c, s, at));
    WfFrame(c, s, s1);
    var s2 := Insert(c, s1, k, FirstSlot(made), at);
    InsertPlace(c, s, k, made, at);
    var r, id := AfterInsert(c, s2), s.nextId;
    AfterInsertTrims(c, s2, id);
    var m: nat, n: nat :| TrimmedAt(c, s2, r, id, s2.queue.All(), r.queue.All(), m, n);
    InsertOthers(c, s, k, made, at);
    TrimmedFrom(c, s, s2, r, id, s2.queue.All(), r.queue.All(), m, n);
    AccessTrans(s, s2, r, id);
  }

  lemma InsertPlace(c: Config, s: State, k: Key, made: Made, at: int)
    requires Wf(c, s) && Wf(c, Invent(s, made, Late(c, s, at))) && !made.Throws?
    ensures var r, id := Insert(c, Invent(s, made, Late(c, s, at)), k, FirstSlot(made), at), s.nextId;
      && id in r.elems && r.elems[id].useCount > 0 && r.now == s.now && AccessKept(s, r, id)
      && (c.accessExpire.Some? ==> r.elems[id].access == at + c.accessExpire.value)
      && r.queue.All() == if c.queued then Moved(s.queue, id) else s.queue.All()
  {
    hide Wf, Insert, Home, Queue.Create;
    InsertLinked(c, s, s.nextId);
  }

  lemma AccessTrans(s: State, s': State, r: State, id: Id)
    ensures AccessKept(s, s', id) && AccessKept(s', r, id) ==> AccessKept(s, r, id)
  {
  }

  // ----- evictions in a quiet world

  /** Neither the clock nor the holders have moved, no element has gained a value and none has been touched. */
  ghost predicate Still(s: State, r: State) {
    && r.now == s.now && r.held == s.held && r.pinned == s.pinned && r.futs == s.futs && r.waiters == s.waiters
    && forall x :: x in r.elems ==>
         x in s.elems && (r.elems[x].slot == s.elems[x].slot || r.elems[x].slot == Weakened(s.elems[x].slot))
  }

  lemma StillTrans(s: State, s': State, s'': State)
    ensures Still(s, s') && Still(s', s'') ==> Still(s, s'')
  {
  }

  lemma ObserveStill(c: Config, s: State)
    requires Quiet(c)
    ensures Still(s, Observe(c, s))
  {
    QuietObserve(c, s);
  }

  lemma EraseStill(c: Config, s: State, id: Id)
    requires Quiet(c) && Wf(c, s) && id in s.elems
    ensures Still(s, EraseIfExpired(c, s, id).s)
  {
    hide Wf, Tends, Observe, Dead, Alive, Quiet;
    ObserveStill(c, s);
  }

  lemma {:induction false} CleanupStill(c: Config, s: State)
    requires Quiet(c) && Wf(c, s)
    ensures Still(s, Cleanup(c, s))
    decreases |s.queue.All()|
  {
    hide Wf, Tends, SameAccess, EraseIfExpired, Still, Quiet;
    SelfStill(s);
    if s.queue.All() != [] {
      LinkedExists(c, s);
      LinkedNoDup(c, s);
      RemoveAt(s.queue.All(), |s.queue.All()| - 1);
      var e := EraseIfExpired(c, s, s.queue.Coldest());
      EraseStill(c, s, s.queue.Coldest());
      if e.done {
        CleanupStill(c, e.s);
        StillTrans(s, e.s, Cleanup(c, e.s));
      }
    }
  }

  lemma SelfStill(s: State)
    ensures Still(s, s)
  {
  }

  lemma EvictStill(c: Config, s: State)
    requires Quiet(c) && Wf(c, s) && s.queue.All() != []
    ensures Still(s, EvictOne(c, s))
  {
    hide Wf, Tends, SameAccess, EraseIfExpired, Quiet, Queue.DropColdest;
    LinkedExists(c, s);
    var s1 := PopColdest(c, s);
    EraseStill(c, s1, s.queue.Coldest());
    assert Still(s, s1);
    StillTrans(s, s1, EvictOne(c, s));
  }

  lemma {:induction false} EvictToStill(c: Config, s: State, n: nat)
    requires Quiet(c) && Wf(c, s)
    ensures Still(s, EvictTo(c, s, n))
    decreases |s.queue.All()|
  {
    hide Wf, Tends, SameAccess, EvictOne, Still, Quiet, Kept;
    SelfStill(s);
    if |s.queue.All()| > n {
      EvictStill(c, s);
      EvictToStill(c, EvictOne(c, s), n);
      StillTrans(s, EvictOne(c, s), EvictTo(c, s, n));
    }
  }

  lemma {:induction false} EvictStaleStill(c: Config, s: State, now: int)
    requires Quiet(c) && Wf(c, s)
    ensures Still(s, EvictStale(c, s, now))
    decreases |s.queue.All()|
  {
    hide Wf, Tends, SameAccess, EvictOne, Still, Quiet, StaleCut;
    SelfStill(s);
    LinkedExists(c, s);
    if s.queue.All() != [] && s.elems[s.queue.Coldest()].access < now {
      EvictStill(c, s);
      EvictStaleStill(c, EvictOne(c, s), now);
      StillTrans(s, EvictOne(c, s), EvictStale(c, s, now));
    }
  }

  lemma AfterInsertStill(c: Config, s: State)
    requires Quiet(c) && Wf(c, s)
    ensures Still(s, AfterInsert(c, s))
  {
    hide Wf, Tends, Cleanup, Still, Quiet, Observe, EvictTo, EvictStale, StaleCut, SameAccess, Kept;
    var s1 := if c.queued then Cleanup(c, s) else s;
    SelfStill(s);
    CleanupStill(c, s);
    var s2 := AccessOnCreate(c, s1);
    AccessStill(c, s1);
    StillTrans(s, s1, s2);
    SizeStill(c, s2);
    StillTrans(s, s2, ApplyMaxSize(c, s2));
  }

  lemma AccessStill(c: Config, s: State)
    requires Quiet(c) && Wf(c, s)
    ensures Still(s, AccessOnCreate(c, s))
  {
    hide Wf, Tends, Quiet, Observe, EvictStale, StaleCut, SameAccess;
    if c.accessExpire.Some? {
      var s1 := Observe(c, s);
      ObserveStill(c, s);
      EvictStaleStill(c, s1, s1.now);
      StillTrans(s, s1, EvictStale(c, s1, s1.now));
    }
  }

  lemma SizeStill(c: Config, s: State)
    requires Quiet(c) && Wf(c, s)
    ensures Still(s, ApplyMaxSize(c, s))
  {
    hide Wf, Tends, Quiet, EvictTo, SameAccess, Kept;
    if c.maxSize.Some? {
      EvictToStill(c, s, c.maxSize.value);
    }
  }

  /** Value `v` is referred to by something else than element `x`. */
  ghost predicate Elsewhere(s: State, x: Id, v: Ptr) {
    || v in s.held
    || v in s.pinned
    || (exists y :: y in s.elems && y != x && Holds(s.futs, s.elems[y].slot, v))
    || (exists t :: t in s.waiters && Completed(s.futs, s.waiters[t].fut, v))
  }

  /** There is a reason to keep element `x` in the table when it is evicted: a creation is under way, or its value is
      referred to by something else. */
  ghost predicate Needed(s: State, x: Id) {
    && x in s.elems
    && (s.elems[x].useCount > 0 || Core(s.elems[x].slot).Future?
        || (Core(s.elems[x].slot).Value? && Elsewhere(s, x, Core(s.elems[x].slot).v)))
  }

  lemma NeededBefore(c: Config, s: State, r: State, x: Id)
    requires Still(s, r) && Tends(c, s, r)
    ensures Needed(r, x) ==> Needed(s, x)
  {
    if Needed(r, x) && Core(r.elems[x].slot).Value? {
      var v := Core(r.elems[x].slot).v;
      if y :| y in r.elems && y != x && Holds(r.futs, r.elems[y].slot, v) {
        assert Holds(s.futs, s.elems[y].slot, v);
      }
    }
  }

  lemma PoppedNeeded(c: Config, s: State)
    requires Quiet(c) && Wf(c, s) && s.queue.All() != []
    ensures var x := s.queue.Coldest(); x in EvictOne(c, s).elems ==> Needed(s, x)
  {
    hide Chained, Accounted, Tends, Quiet, Queue.DropColdest, Observe, Erase;
    LinkedExists(c, s);
    var x := s.queue.Coldest();
    var s1 := PopColdest(c, s);
    var s2 := Observe(c, s1);
    ObserveStill(c, s1);
    if x in EvictOne(c, s).elems && s1.elems[x].useCount == 0 {
      var y := s1.elems[x].slot;
      assert s2.elems[x].slot == y == Weakened(s.elems[x].slot);
      assert !IsExpired(c, s2, s2.elems[x]);
      if y.Weak? {
        AliveElsewhere(s2, x, y.v);
        NeededHere(s, s2, x, y.v);
      }
    }
  }

  lemma AliveElsewhere(s: State, x: Id, v: Ptr)
    requires x in s.elems && s.elems[x].slot.Weak? && Alive(s, v)
    ensures Elsewhere(s, x, v)
  {
  }

  lemma NeededHere(s: State, r: State, x: Id, v: Ptr)
    requires Elsewhere(r, x, v) && x in s.elems && Core(s.elems[x].slot) == Value(v)
    requires r.held == s.held && r.pinned == s.pinned && r.futs == s.futs && r.waiters == s.waiters
    requires forall y :: y in r.elems && y != x ==> y in s.elems && r.elems[y].slot == s.elems[y].slot
    ensures Needed(s, x)
  {
    if y :| y in r.elems && y != x && Holds(r.futs, r.elems[y].slot, v) {
      assert Holds(s.futs, s.elems[y].slot, v);
    }
  }

  /** In a quiet world an element that is evicted to keep the size is erased, unless there is a reason to keep it. */
  lemma {:induction false} EvictToErases(c: Config, s: State, n: nat, x: Id)
    requires Quiet(c) && Wf(c, s)
    requires x in s.queue.All() && x !in EvictTo(c, s, n).queue.All() && x in EvictTo(c, s, n).elems
    ensures Needed(s, x)
    decreases |s.queue.All()|
  {
    hide Wf, Tends, SameAccess, EvictOne, Still, Quiet, Kept, Needed;
    var s1 := EvictOne(c, s);
    StaysGone(c, s1, EvictTo(c, s1, n), x);
    if x == s.queue.Coldest() {
      PoppedNeeded(c, s);
    } else {
      DroppedOther(s.queue, x);
      EvictToErases(c, s1, n, x);
      EvictStill(c, s);
      NeededBefore(c, s, s1, x);
    }
  }

  lemma DroppedOther(q: Queue<Id>, x: Id)
    requires x in q.All() && x != q.Coldest()
    ensures x in q.DropColdest().All()
  {
  }

  lemma {:induction false} EvictStaleErases(c: Config, s: State, now: int, x: Id)
    requires Quiet(c) && Wf(c, s)
    requires x in s.queue.All() && x !in EvictStale(c, s, now).queue.All() && x in EvictStale(c, s, now).elems
    ensures Needed(s, x)
    decreases |s.queue.All()|
  {
    hide Wf, Tends, SameAccess, EvictOne, Still, Quiet, StaleCut, Needed;
    LinkedExists(c, s);
    var s1 := EvictOne(c, s);
    StaysGone(c, s1, EvictStale(c, s1, now), x);
    if x == s.queue.Coldest() {
      PoppedNeeded(c, s);
    } else {
      DroppedOther(s.queue, x);
      EvictStaleErases(c, s1, now, x);
      EvictStill(c, s);
      NeededBefore(c, s, s1, x);
    }
  }

  /** What the size limit and the access decorator evict is erased at once, unless there is a reason to keep it. */
  lemma EvictedErased(c: Config, s: State, n: nat, now: int, x: Id)
    requires Quiet(c) && Wf(c, s) && x in s.queue.All()
    ensures var r := ShrinkToSize(c, s, n); x in r.queue.All() || x !in r.elems || Needed(s, x)
    ensures var r := ShrinkStale(c, s, now); x in r.queue.All() || x !in r.elems || Needed(s, x)
  {
    hide Wf, Tends, SameAccess, EvictTo, EvictStale, Quiet, Needed, StaleCut, Kept;
    if x !in EvictTo(c, s, n).queue.All() && x in EvictTo(c, s, n).elems {
      EvictToErases(c, s, n, x);
    }
    if x !in EvictStale(c, s, now).queue.All() && x in EvictStale(c, s, now).elems {
      EvictStaleErases(c, s, now, x);
    }
  }
}
