/** The walks over one bucket: lookup with removal of expired elements, read-only lookup, and expiry of a key. */
module Lookup {
  import opened Sequences
  import opened ElementState
  import opened CacheState
  import opened Maintenance

  /** The bucket in which key `k` belongs. */
  function BucketOf(c: Config, s: State, k: Key): (b: nat)
    requires Wf(c, s)
    ensures b < |s.buckets| && b == Home(c, |s.buckets|, k)
  {
    Home(c, |s.buckets|, k)
  }

  datatype Found = Hit(s: State, id: Id, got: Content) | Miss(s: State)

  /** In bucket `b`, every element of key `k` before position `i` is dead. */
  ghost predicate DeadBefore(c: Config, s: State, b: nat, i: nat, k: Key)
    requires b < |s.buckets| && i <= |s.buckets[b]|
  {
    forall j :: 0 <= j < i && s.buckets[b][j] in s.elems && s.elems[s.buckets[b][j]].key == k ==>
      Dead(c, s, s.elems[s.buckets[b][j]])
  }

  ghost predicate AllDead(c: Config, s: State, k: Key) {
    forall id :: id in s.elems && s.elems[id].key == k ==> Dead(c, s, s.elems[id])
  }

  /** What a lookup promises: a hit is a live element of the key with its content; a miss means that no element
      of the key, in any bucket, is alive. */
  ghost predicate FoundOk(c: Config, k: Key, r: Found) {
    match r
    case Hit(s, id, got) =>
      id in s.elems && s.elems[id].key == k && !Dead(c, s, s.elems[id]) && Core(s.elems[id].slot) == got
    case Miss(s) => AllDead(c, s, k)
  }

  lemma DeadBeforeObserve(c: Config, s: State, s': State, b: nat, i: nat, k: Key)
    requires b < |s.buckets| && i <= |s.buckets[b]|
    requires s'.elems == s.elems && s'.buckets == s.buckets
    ensures Tends(c, s, s') && DeadBefore(c, s, b, i, k) ==> DeadBefore(c, s', b, i, k)
  {
  }

  lemma DeadBeforeErase(c: Config, s: State, b: nat, i: nat, k: Key, s': State)
    requires b < |s.buckets| && i < |s.buckets[b]| && NoDup(s.buckets[b])
    requires s'.elems == s.elems - {s.buckets[b][i]}
    requires s'.buckets == s.buckets[b := Remove(s.buckets[b], s.buckets[b][i])]
    ensures |s'.buckets[b]| == |s.buckets[b]| - 1
    ensures Tends(c, s, s') && DeadBefore(c, s, b, i, k) ==> DeadBefore(c, s', b, i, k)
  {
    RemoveAt(s.buckets[b], i);
  }

  lemma DeadBeforeAll(c: Config, s: State, k: Key)
    requires |s.buckets| > 0
    ensures var b := Home(c, |s.buckets|, k);
      Wf(c, s) && DeadBefore(c, s, b, |s.buckets[b]|, k) ==> AllDead(c, s, k)
  {
    hide Home;
    var b := Home(c, |s.buckets|, k);
    if Wf(c, s) && DeadBefore(c, s, b, |s.buckets[b]|, k) {
      forall id | id in s.elems && s.elems[id].key == k ensures Dead(c, s, s.elems[id]) {
        assert id in s.buckets[b];
      }
    }
  }

  lemma ChainWf(c: Config, s: State, b: nat)
    requires b < |s.buckets|
    ensures Wf(c, s) ==> NoDup(s.buckets[b])
    ensures Wf(c, s) ==> forall i :: 0 <= i < |s.buckets[b]| ==>
      s.buckets[b][i] in s.elems && Home(c, |s.buckets|, s.elems[s.buckets[b][i]].key) == b
  {
    hide Home;
  }

  lemma AtHome(c: Config, s: State, id: Id)
    ensures Wf(c, s) && id in s.elems ==> |s.buckets| > 0 && id in s.buckets[Home(c, |s.buckets|, s.elems[id].key)]
  {
    hide Home, Linked, Coupled, Accounted;
  }

  lemma DeadBeforeNone(c: Config, s: State, b: nat, k: Key)
    requires b < |s.buckets|
    ensures DeadBefore(c, s, b, 0, k)
  {
  }

  lemma EraseTrims(s: State, s': State, id: Id)
    requires s'.queue == s.queue.Delete(id)
    ensures Trims(s, s')
  {
  }

  /** Every walk that may erase looks at an element in the same way: an expired element leaves, unless it is locked. */
  datatype Swept = Keeps(s: State) | Drops(s: State) | Lives(s: State)

  ghost predicate SweptOk(c: Config, s: State, id: Id, r: Swept)
    requires id in s.elems && |s.buckets| > 0
  {
    && Wf(c, r.s) && Tends(c, s, r.s) && Trims(s, r.s)
    && match r
       case Keeps(s') =>
         s'.elems == s.elems && s'.buckets == s.buckets && Dead(c, s', s.elems[id]) && s.elems[id].useCount != 0
       case Drops(s') =>
         var b := Home(c, |s.buckets|, s.elems[id].key);
         s'.elems == s.elems - {id} && s'.buckets == s.buckets[b := Remove(s.buckets[b], id)]
       case Lives(s') => s'.elems == s.elems && s'.buckets == s.buckets && !Dead(c, s', s.elems[id])
  }

  function Sweep(c: Config, s: State, id: Id): (r: Swept)
    requires Wf(c, s) && id in s.elems
    ensures SweptOk(c, s, id, r)
  {
    hide Wf, Tends, Observe, Erase, Home, Interfere, Alive;
    var s1 := Observe(c, s);
    ExpiredIsDead(c, s1, id);
    if !IsExpired(c, s1, s1.elems[id]) then Lives(s1)
    else if s1.elems[id].useCount != 0 then Keeps(s1)
    else
      var s2 := Erase(c, s1, id);
      EraseTrims(s1, s2, id);
      TendsTrans(c, s, s1, s2);
      Drops(s2)
  }

  /** The outcome of visiting one element of a chain in search of a key. */
  datatype Visit = Stays(s: State) | Leaves(s: State) | Matches(s: State, got: Content)

  ghost predicate VisitOk(c: Config, s: State, id: Id, k: Key, r: Visit)
    requires id in s.elems && |s.buckets| > 0
  {
    && Wf(c, r.s) && Tends(c, s, r.s) && Trims(s, r.s)
    && match r
       case Stays(s') =>
         s'.elems == s.elems && s'.buckets == s.buckets && (s.elems[id].key == k ==> Dead(c, s', s.elems[id]))
       case Leaves(s') =>
         var b := Home(c, |s.buckets|, s.elems[id].key);
         s'.elems == s.elems - {id} && s'.buckets == s.buckets[b := Remove(s.buckets[b], id)]
       case Matches(s', got) =>
         && s'.elems == s.elems && s'.buckets == s.buckets
         && s.elems[id].key == k && !Dead(c, s', s.elems[id]) && got == Core(s.elems[id].slot)
  }

  /** Visits one element in search of key `k`. With `recheck`, a match whose pointee died since the expiry check does
      not count. */
  function LookAt(c: Config, s: State, id: Id, k: Key, recheck: bool): (r: Visit)
    requires Wf(c, s) && id in s.elems
    ensures VisitOk(c, s, id, k, r)
  {
    hide Wf, Tends, Observe, Home, Interfere, Alive, Sweep;
    match Sweep(c, s, id)
    case Keeps(s1) => Stays(s1)
    case Drops(s1) => Leaves(s1)
    case Lives(s1) =>
      if s1.elems[id].key != k then Stays(s1) else
      if !recheck then Matches(s1, Core(s1.elems[id].slot)) else
      var s2 := Observe(c, s1);
      ExpiredIsDead(c, s2, id);
      TendsTrans(c, s, s1, s2);
      if IsExpired(c, s2, s2.elems[id]) then Stays(s2) else Matches(s2, Core(s2.elems[id].slot))
  }

  ghost predicate ScanOk(c: Config, s: State, k: Key, r: Found) {
    && FoundOk(c, k, r)
    && Wf(c, r.s) && Tends(c, s, r.s) && Trims(s, r.s)
    && |r.s.buckets| == |s.buckets|
  }

  lemma ScanTrans(c: Config, s: State, s1: State, k: Key, r: Found)
    requires |s1.buckets| == |s.buckets|
    ensures Tends(c, s, s1) && Trims(s, s1) && ScanOk(c, s1, k, r) ==> ScanOk(c, s, k, r)
  {
    hide Tends, Wf, FoundOk;
    TendsTrans(c, s, s1, r.s);
  }

  lemma VisitStays(c: Config, s: State, b: nat, i: nat, k: Key, r: Visit)
    requires b < |s.buckets| && i < |s.buckets[b]| && s.buckets[b][i] in s.elems
    requires VisitOk(c, s, s.buckets[b][i], k, r) && DeadBefore(c, s, b, i, k)
    ensures r.Stays? ==> DeadBefore(c, r.s, b, i + 1, k)
  {
    hide Wf;
    if r.Stays? {
      DeadBeforeObserve(c, s, r.s, b, i, k);
    }
  }

  lemma VisitLeaves(c: Config, s: State, b: nat, i: nat, k: Key, r: Visit)
    requires b < |s.buckets| && i < |s.buckets[b]| && s.buckets[b][i] in s.elems
    requires Wf(c, s) && VisitOk(c, s, s.buckets[b][i], k, r) && DeadBefore(c, s, b, i, k)
    ensures r.Leaves? ==>
      && |r.s.buckets| == |s.buckets| && |r.s.buckets[b]| == |s.buckets[b]| - 1
      && DeadBefore(c, r.s, b, i, k)
  {
    hide Wf, Tends, DeadBefore, Home;
    ChainWf(c, s, b);
    if r.Leaves? {
      DeadBeforeErase(c, s, b, i, k, r.s);
    }
  }

  /** Walks bucket `b` from position `i` in search of key `k`. */
  function Scan(c: Config, s: State, b: nat, i: nat, k: Key, recheck: bool): (r: Found)
    requires Wf(c, s) && b < |s.buckets| && b == Home(c, |s.buckets|, k)
    requires i <= |s.buckets[b]| && DeadBefore(c, s, b, i, k)
    ensures ScanOk(c, s, k, r)
    decreases |s.buckets[b]| - i
  {
    hide Wf, Tends, Home, LookAt, DeadBefore, ScanOk;
    if i == |s.buckets[b]| then
      ScanEnd(c, s, k);
      Miss(s)
    else
      ChainWf(c, s, b);
      var id := s.buckets[b][i];
      var v := LookAt(c, s, id, k, recheck);
      VisitStays(c, s, b, i, k, v);
      VisitLeaves(c, s, b, i, k, v);
      match v
      case Stays(s1) =>
        var r := Scan(c, s1, b, i + 1, k, recheck);
        ScanTrans(c, s, s1, k, r);
        r
      case Leaves(s1) =>
        var r := Scan(c, s1, b, i, k, recheck);
        ScanTrans(c, s, s1, k, r);
        r
      case Matches(s1, got) =>
        ScanMatch(c, s, id, k, v);
        Hit(s1, id, got)
  }

  /** The walk over the bucket of key `k`, from its head. */
  ghost function Sought(c: Config, s: State, k: Key, recheck: bool): (r: Found)
    requires Wf(c, s)
    ensures ScanOk(c, s, k, r)
  {
    hide ScanOk;
    DeadBeforeNone(c, s, BucketOf(c, s, k), k);
    Scan(c, s, BucketOf(c, s, k), 0, k, recheck)
  }

  lemma ScanEnd(c: Config, s: State, k: Key)
    requires |s.buckets| > 0
    ensures var b := Home(c, |s.buckets|, k);
      Wf(c, s) && DeadBefore(c, s, b, |s.buckets[b]|, k) ==> ScanOk(c, s, k, Miss(s))
  {
    hide Wf, Tends;
    DeadBeforeAll(c, s, k);
    TendsRefl(c, s);
  }

  lemma ScanMatch(c: Config, s: State, id: Id, k: Key, v: Visit)
    requires id in s.elems && |s.buckets| > 0
    ensures VisitOk(c, s, id, k, v) && v.Matches? ==> ScanOk(c, s, k, Hit(v.s, id, v.got))
  {
    hide Wf, Tends;
  }

  // ----- read-only lookup

  /** Walks bucket `b` from position `i` without touching it. Expired elements are passed over by asking for their
      pointer. */
  function PeekScan(c: Config, s: State, b: nat, i: nat, k: Key): (r: Found)
    requires Wf(c, s) && b < |s.buckets| && b == Home(c, |s.buckets|, k)
    requires i <= |s.buckets[b]| && DeadBefore(c, s, b, i, k)
    ensures ScanOk(c, s, k, r)
    ensures r.s.elems == s.elems && r.s.buckets == s.buckets && r.s.queue == s.queue
    decreases |s.buckets[b]| - i
  {
    hide Wf, Tends, Home, Observe, DeadBefore, ScanOk;
    if i == |s.buckets[b]| then
      ScanEnd(c, s, k);
      Miss(s)
    else
      ChainWf(c, s, b);
      var id := s.buckets[b][i];
      if s.elems[id].key != k then
        DeadBeforeSkip(c, s, s, b, i, k);
        PeekScan(c, s, b, i + 1, k)
      else
        var s1 := Observe(c, s);
        ExpiredIsDead(c, s1, id);
        if !IsExpired(c, s1, s1.elems[id]) then
          PeekMatch(c, s, s1, id, k);
          Hit(s1, id, Core(s1.elems[id].slot))
        else
          DeadBeforeSkip(c, s, s1, b, i, k);
          var r := PeekScan(c, s1, b, i + 1, k);
          ScanTrans(c, s, s1, k, r);
          r
  }

  lemma DeadBeforeSkip(c: Config, s: State, s': State, b: nat, i: nat, k: Key)
    requires b < |s.buckets| && i < |s.buckets[b]| && s.buckets[b][i] in s.elems
    requires s'.elems == s.elems && s'.buckets == s.buckets
    requires s == s' || Tends(c, s, s')
    requires s.elems[s.buckets[b][i]].key == k ==> Dead(c, s', s.elems[s.buckets[b][i]])
    ensures DeadBefore(c, s, b, i, k) ==> DeadBefore(c, s', b, i + 1, k)
  {
  }

  lemma PeekMatch(c: Config, s: State, s1: State, id: Id, k: Key)
    requires id in s1.elems && s1.elems[id].key == k && !Dead(c, s1, s1.elems[id])
    requires s1.buckets == s.buckets && s1.queue == s.queue
    ensures Wf(c, s1) && Tends(c, s, s1) ==> ScanOk(c, s, k, Hit(s1, id, Core(s1.elems[id].slot)))
  {
    hide Wf, Tends;
  }

  // ----- expiring a key

  /** Expires one element; it is erased at once unless it is locked, that is unless it is pending. */
  function Strike(c: Config, s: State, id: Id): (r: State)
    requires Wf(c, s) && id in s.elems
    requires s.elems[id].slot.Pending? ==> s.elems[id].useCount > 0
    ensures Wf(c, r) && Trims(s, r)
    ensures Tends(c, WithSlot(s, id, Expired(s.elems[id].slot)), r)
    ensures id in r.elems <==> s.elems[id].useCount > 0
  {
    hide Wf, Tends, Erase;
    var s1 := WithSlot(s, id, Expired(s.elems[id].slot));
    StrikeWf(c, s, id);
    TendsRefl(c, s1);
    if s.elems[id].useCount > 0 then s1 else
    var s2 := Erase(c, s1, id);
    EraseTrims(s1, s2, id);
    s2
  }

  lemma StrikeWf(c: Config, s: State, id: Id)
    requires id in s.elems
    ensures Wf(c, s) ==> Wf(c, WithSlot(s, id, Expired(s.elems[id].slot)))
  {
    hide Chained, Accounted;
    ChainedFrame(c, s, WithSlot(s, id, Expired(s.elems[id].slot)));
  }
}
