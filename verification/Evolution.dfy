/** The invariants of the cache between two critical sections, and the relation that every step satisfies. */
module Evolution {
  import opened ElementState
  import opened CacheState

  /** Every value that is referred to has been created, and every future is registered. */
  ghost predicate Known(s: State) {
    && (forall v :: Alive(s, v) ==> v != Null && v in s.born)
    && (forall id :: id in s.elems ==> id < s.nextId && KnownContent(s, Core(s.elems[id].slot)))
    && (forall t :: t in s.waiters ==> s.waiters[t].fut in s.futs)
    && (forall f :: f in s.futs && s.futs[f].Some? && s.futs[f].value.Done? ==>
          s.futs[f].value.v == Null || s.futs[f].value.v in s.born)
  }

  ghost predicate KnownContent(s: State, x: Content) {
    match x
    case Nothing => true
    case Value(v) => v == Null || v in s.born
    case Future(f) => f in s.futs
  }

  /** Element `id` is pending for the creation that thread `t` runs. */
  ghost predicate Creates(s: State, t: Tid, id: Id) {
    t in s.waiters && s.waiters[t].Creator? && s.waiters[t].id == id
  }

  /** A locked element has one lock, held by the one thread that creates it, and is pending for that thread's future. A
      pending element is locked, unless its creation outlasted its age limit: then nobody ever comes back for it. */
  ghost predicate Locks(c: Config, s: State) {
    && (forall id :: id in s.elems && s.elems[id].useCount > 0 ==>
          s.elems[id].useCount == 1 && exists t :: Creates(s, t, id))
    && (forall id :: id in s.elems && s.elems[id].slot.Pending? && s.elems[id].useCount == 0 ==>
          MaxAged(c, s, s.elems[id]))
    && (forall t, id :: Creates(s, t, id) ==>
          && id in s.elems && s.elems[id].useCount == 1
          && s.elems[id].slot.Pending? && s.elems[id].slot.fut == s.waiters[t].fut)
    && (forall t, t', id :: Creates(s, t, id) && Creates(s, t', id) ==> t == t')
  }

  predicate Live(c: Config, s: State, id: Id) {
    id in s.elems && !Dead(c, s, s.elems[id])
  }

  /** At most one element per key is alive. */
  ghost predicate Unique(c: Config, s: State) {
    forall id, id' :: Live(c, s, id) && Live(c, s, id') && s.elems[id].key == s.elems[id'].key ==> id == id'
  }

  // ----- maintenance keeps the invariants

  lemma KnownTends(c: Config, s: State, s': State)
    ensures Tends(c, s, s') && Known(s) ==> Known(s')
  {
    if Tends(c, s, s') && Known(s) {
      forall id | id in s'.elems ensures KnownContent(s', Core(s'.elems[id].slot)) {
        assert KnownContent(s, Core(s.elems[id].slot));
      }
    }
  }

  lemma LocksTends(c: Config, s: State, s': State)
    ensures Tends(c, s, s') && Locks(c, s) ==> Locks(c, s')
  {
    if Tends(c, s, s') && Locks(c, s) {
      forall id | id in s'.elems && s'.elems[id].slot.Pending? && s'.elems[id].useCount == 0
        ensures MaxAged(c, s', s'.elems[id])
      {
        assert Core(s'.elems[id].slot) == Core(s.elems[id].slot);
      }
      forall t, id | Creates(s', t, id)
        ensures id in s'.elems && s'.elems[id].useCount == 1
        ensures s'.elems[id].slot.Pending? && s'.elems[id].slot.fut == s'.waiters[t].fut
      {
        assert Creates(s, t, id);
        assert Core(s'.elems[id].slot) == Core(s.elems[id].slot);
      }
      forall id | id in s'.elems && s'.elems[id].useCount > 0
        ensures s'.elems[id].useCount == 1 && exists t :: Creates(s', t, id)
      {
        var t :| Creates(s, t, id);
        assert Creates(s', t, id);
      }
      forall t, t', id | Creates(s', t, id) && Creates(s', t', id) ensures t == t' {
        assert Creates(s, t, id) && Creates(s, t', id);
      }
    }
  }

  // ----- what any step may do

  ghost predicate Follows(e: Elem, e': Elem) {
    && e'.key == e.key && e'.maxAge == e.maxAge
    && (Core(e'.slot) == Core(e.slot) || Core(e'.slot) == Nothing || Core(e.slot).Future?)
  }

  /** `s'` is later than `s`: known values do not come back to life, elements keep their identity, and an element
      that holds a value stays and keeps it until it is dead, unless its key is in `gone`; nor is a pending element
      marked unless its key is in `gone`. */
  ghost predicate Later(c: Config, s: State, s': State, gone: set<Key>) {
    && s.now <= s'.now && s.nextId <= s'.nextId && s.born <= s'.born && |s.buckets| <= |s'.buckets|
    && (forall v :: v in s.born && Alive(s', v) ==> Alive(s, v))
    && (forall id :: id in s'.elems && id < s.nextId ==> id in s.elems && Follows(s.elems[id], s'.elems[id]))
    && (forall id :: id in s.elems && s.elems[id].key !in gone && Core(s.elems[id].slot).Value? ==>
          || Dead(c, s', s.elems[id])
          || (id in s'.elems && Core(s'.elems[id].slot) == Core(s.elems[id].slot)))
    && (forall id :: id in s.elems && id in s'.elems && s.elems[id].key !in gone && s'.elems[id].slot.Pending? ==>
          && Core(s'.elems[id].slot) == Core(s.elems[id].slot)
          && (Marked(s'.elems[id].slot) ==> Marked(s.elems[id].slot)))
  }

  lemma LaterRefl(c: Config, s: State, gone: set<Key>)
    ensures Later(c, s, s, gone)
  {
  }

  lemma TendsLater(c: Config, s: State, s': State, gone: set<Key>)
    ensures Tends(c, s, s') ==> Later(c, s, s', gone)
  {
  }

  lemma DeadRemains(c: Config, s: State, s': State, gone: set<Key>, e: Elem, e': Elem)
    requires Later(c, s, s', gone) && Dead(c, s, e) && Follows(e, e')
    requires KnownContent(s, Core(e.slot))
    ensures Dead(c, s', e')
  {
  }

  lemma LaterTrans(c: Config, s: State, s': State, s'': State, gone: set<Key>)
    requires Known(s)
    ensures Later(c, s, s', gone) && Later(c, s', s'', gone) ==> Later(c, s, s'', gone)
  {
    if Later(c, s, s', gone) && Later(c, s', s'', gone) {
      forall id | id in s.elems && s.elems[id].key !in gone && Core(s.elems[id].slot).Value?
        ensures Dead(c, s'', s.elems[id]) || (id in s''.elems && Core(s''.elems[id].slot) == Core(s.elems[id].slot))
      {
        assert KnownContent(s, Core(s.elems[id].slot));
        if id !in s'.elems || Core(s'.elems[id].slot) != Core(s.elems[id].slot) {
          LaterRefl(c, s, gone);
          assert Dead(c, s', s.elems[id]);
          assert KnownContent(s', Core(s.elems[id].slot));
          DeadRemains(c, s', s'', gone, s.elems[id], s.elems[id]);
        }
      }
    }
  }

  /** Uniqueness survives a step that creates at most one element, and that one only when its key has no live element.
      */
  lemma UniqueLater(c: Config, s: State, s': State, gone: set<Key>)
    requires Known(s)
    requires Later(c, s, s', gone) && s'.nextId <= s.nextId + 1
    requires forall id :: id in s'.elems ==> id < s'.nextId
    requires s.nextId in s'.elems ==>
      forall id :: id in s'.elems && id != s.nextId && s'.elems[id].key == s'.elems[s.nextId].key ==>
          Dead(c, s', s'.elems[id])
    ensures Unique(c, s) ==> Unique(c, s')
  {
    if Unique(c, s) {
      forall id, id' | Live(c, s', id) && Live(c, s', id') && s'.elems[id].key == s'.elems[id'].key
        ensures id == id'
      {
        if id != s.nextId && id' != s.nextId {
          assert KnownContent(s, Core(s.elems[id].slot)) && KnownContent(s, Core(s.elems[id'].slot));
          if Dead(c, s, s.elems[id]) {
            DeadRemains(c, s, s', gone, s.elems[id], s'.elems[id]);
          }
          if Dead(c, s, s.elems[id']) {
            DeadRemains(c, s, s', gone, s.elems[id'], s'.elems[id']);
          }
        }
      }
    }
  }
}
