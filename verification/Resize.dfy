/** Full maintenance and growth of the bucket table. */
module Resize {
  import opened Sequences
  import opened CacheState
  import opened Maintenance
  import opened Lookup
  import opened HashChains
  import opened Growth

  lemma TrimTrans(c: Config, s: State, s': State, s'': State)
    ensures Tends(c, s, s') && Trims(s, s') && Tends(c, s', s'') && Trims(s', s'') ==> Tends(c, s, s'') && Trims(s, s'')
  {
    hide Tends;
    TendsTrans(c, s, s', s'');
  }

  /** Erases every expired, unlocked element: visits the buckets from `b` on, the first one from position `i` on. */
  function EraseAllExpired(c: Config, s: State, b: nat, i: nat): (r: State)
    requires Wf(c, s) && b <= |s.buckets| && (b < |s.buckets| ==> i <= |s.buckets[b]|)
    ensures Wf(c, r) && Tends(c, s, r) && Trims(s, r)
    ensures |r.buckets| == |s.buckets|
    decreases |s.buckets| - b, if b < |s.buckets| then |s.buckets[b]| - i else 0
  {
    hide Wf, Tends, Trims, Home, Sweep;
    if b == |s.buckets| then EraseNone(c, s); s
    else if i == |s.buckets[b]| then EraseAllExpired(c, s, b + 1, 0)
    else
      ChainWf(c, s, b);
      var w := Sweep(c, s, s.buckets[b][i]);
      SweptBuckets(c, s, b, i, w);
      match w
      case Drops(s1) =>
        var r := EraseAllExpired(c, s1, b, i);
        TrimTrans(c, s, s1, r);
        r
      case Keeps(s1) =>
        var r := EraseAllExpired(c, s1, b, i + 1);
        TrimTrans(c, s, s1, r);
        r
      case Lives(s1) =>
        var r := EraseAllExpired(c, s1, b, i + 1);
        TrimTrans(c, s, s1, r);
        r
  }

  lemma EraseNone(c: Config, s: State)
    ensures Tends(c, s, s) && Trims(s, s)
  {
    hide Tends;
    TendsRefl(c, s);
  }

  lemma SweptBuckets(c: Config, s: State, b: nat, i: nat, w: Swept)
    requires b < |s.buckets| && i < |s.buckets[b]| && s.buckets[b][i] in s.elems
    requires NoDup(s.buckets[b]) && Home(c, |s.buckets|, s.elems[s.buckets[b][i]].key) == b
    requires SweptOk(c, s, s.buckets[b][i], w)
    ensures |w.s.buckets| == |s.buckets|
    ensures |w.s.buckets[b]| == |s.buckets[b]| - if w.Drops? then 1 else 0
  {
    hide Wf, Tends, Trims, Home;
    RemoveAt(s.buckets[b], i);
  }

  /** The walk over all buckets still has element `id` before it. */
  ghost predicate Ahead(c: Config, s: State, b: nat, i: nat, id: Id) {
    && |s.buckets| > 0 && id in s.elems
    && var h := Home(c, |s.buckets|, s.elems[id].key);
       h > b || (h == b && i <= |s.buckets[b]| && id in s.buckets[b][i..])
  }

  /** Full maintenance misses nothing: an element that is dead and unlocked when it starts is gone when it ends. */
  lemma {:induction false} EraseAllClears(c: Config, s: State, b: nat, i: nat, id: Id)
    requires Wf(c, s) && b < |s.buckets| && i <= |s.buckets[b]|
    requires Ahead(c, s, b, i, id) && s.elems[id].useCount == 0 && Dead(c, s, s.elems[id])
    ensures id !in EraseAllExpired(c, s, b, i).elems
    decreases |s.buckets| - b, |s.buckets[b]| - i
  {
    hide Wf, Trims, Home, Sweep, Dead;
    if i == |s.buckets[b]| {
      AtHome(c, s, id);
      EraseAllClears(c, s, b + 1, 0, id);
    } else {
      ChainWf(c, s, b);
      var x := s.buckets[b][i];
      var w := Sweep(c, s, x);
      SweptBuckets(c, s, b, i, w);
      if x != id {
        AheadStays(c, s, b, i, id, w);
        EraseAllClears(c, w.s, b, if w.Drops? then i else i + 1, id);
      } else {
        SweepErases(c, s, id);
      }
    }
  }

  lemma SweepErases(c: Config, s: State, id: Id)
    requires Wf(c, s) && id in s.elems && s.elems[id].useCount == 0 && Dead(c, s, s.elems[id])
    ensures Sweep(c, s, id).Drops?
  {
    hide Wf, Trims, Home, Sweep;
    var w := Sweep(c, s, id);
    DeadStays(c, s, w.s, s.elems[id], s.elems[id]);
  }

  lemma AheadStays(c: Config, s: State, b: nat, i: nat, id: Id, w: Swept)
    requires b < |s.buckets| && i < |s.buckets[b]| && s.buckets[b][i] in s.elems && s.buckets[b][i] != id
    requires NoDup(s.buckets[b]) && Home(c, |s.buckets|, s.elems[s.buckets[b][i]].key) == b
    requires SweptOk(c, s, s.buckets[b][i], w)
    requires Ahead(c, s, b, i, id) && s.elems[id].useCount == 0 && Dead(c, s, s.elems[id])
    ensures Ahead(c, w.s, b, if w.Drops? then i else i + 1, id)
    ensures w.s.elems[id].useCount == 0 && Dead(c, w.s, w.s.elems[id])
  {
    hide Wf, Trims, Home;
    RemoveAt(s.buckets[b], i);
    DeadStays(c, s, w.s, s.elems[id], s.elems[id]);
    if w.Drops? {
      assert (s.buckets[b][..i] + s.buckets[b][i + 1..])[i..] == s.buckets[b][i + 1..];
    }
  }

  /** Exactly the dead, unlocked elements go: all that are dead when it starts, and none that is alive when it ends. */
  lemma FullMaintenance(c: Config, s: State, id: Id)
    requires Wf(c, s) && id in s.elems
    ensures var r := EraseAllExpired(c, s, 0, 0);
      && (s.elems[id].useCount == 0 && Dead(c, s, s.elems[id]) ==> id !in r.elems)
      && (id !in r.elems ==> s.elems[id].useCount == 0 && Dead(c, r, s.elems[id]))
  {
    hide Wf, Trims, Home, Dead, EraseAllExpired;
    AtHome(c, s, id);
    if s.elems[id].useCount == 0 && Dead(c, s, s.elems[id]) {
      assert s.buckets[0][0..] == s.buckets[0];
      EraseAllClears(c, s, 0, 0, id);
    }
  }

  /** The hash of an element, for placing it. */
  function HashOf(c: Config, elems: map<Id, Elem>): Id -> nat {
    (id: Id) => HashIn(c, elems, id)
  }

  function HashIn(c: Config, elems: map<Id, Elem>, id: Id): nat {
    if id in elems then c.hash(elems[id].key) else 0
  }

  /** The table grown to `m` buckets: one pass over the original buckets moves every element home. */
  function Rehash(c: Config, s: State, m: nat): (r: State)
    requires Wf(c, s) && |s.buckets| <= m
    ensures Wf(c, r) && Tends(c, s, r)
    ensures r == s.(buckets := r.buckets) && |r.buckets| == m
  {
    hide Wf, Tends;
    var r := s.(buckets := Rehashed(HashOf(c, s.elems), s.buckets, m));
    RehashWf(c, s, m);
    TendsFrame(c, s, r);
    r
  }

  lemma RehashWf(c: Config, s: State, m: nat)
    requires |s.buckets| <= m
    ensures Wf(c, s) ==> Wf(c, s.(buckets := Rehashed(HashOf(c, s.elems), s.buckets, m)))
  {
    if Wf(c, s) {
      var r := s.(buckets := Rehashed(HashOf(c, s.elems), s.buckets, m));
      RehashChained(c, s, m);
      hide Chained, Accounted;
      assert Wf(c, r);
    }
  }

  lemma ElementsOnce(c: Config, s: State, id: Id)
    requires Chained(c, s)
    ensures Bag(s.buckets)[id] == if id in s.elems then 1 else 0
  {
    hide Home;
    forall b, d | 0 <= b < d < |s.buckets| && id in s.buckets[b] ensures id !in s.buckets[d] {
      assert Home(c, |s.buckets|, s.elems[id].key) == b;
    }
    BagOnce(s.buckets, id);
    BagMember(s.buckets, id);
    if id in s.elems {
      assert id in s.buckets[Home(c, |s.buckets|, s.elems[id].key)];
    }
  }

  /** An element counted once overall and placed by its hash is in its home bucket and in no other. */
  lemma OnceAtHome(c: Config, s: State, r: seq<seq<Id>>, b: nat, id: Id)
    requires b < |r|
    requires forall d :: 0 <= d < |r| ==> Placed(HashOf(c, s.elems), r[d], |r|, d)
    requires Bag(r)[id] == if id in s.elems then 1 else 0
    ensures id in r[b] <==> id in s.elems && Home(c, |r|, s.elems[id].key) == b
  {
    BagMember(r, id);
    if id in s.elems {
      var d :| 0 <= d < |r| && id in r[d];
      assert Placed(HashOf(c, s.elems), r[d], |r|, d) && Placed(HashOf(c, s.elems), r[b], |r|, b);
    }
  }

  lemma RehashChained(c: Config, s: State, m: nat)
    requires Chained(c, s) && |s.buckets| <= m
    ensures Chained(c, s.(buckets := Rehashed(HashOf(c, s.elems), s.buckets, m)))
  {
    hide Home, Placed, HashOf, Rehashed;
    var r := Rehashed(HashOf(c, s.elems), s.buckets, m);
    RehashCorrect(HashOf(c, s.elems), s.buckets, m);
    forall id ensures Bag(r)[id] == if id in s.elems then 1 else 0 {
      ElementsOnce(c, s, id);
    }
    forall b, id | 0 <= b < m
      ensures id in r[b] <==> id in s.elems && Home(c, m, s.elems[id].key) == b
    {
      OnceAtHome(c, s, r, b, id);
    }
    forall b | 0 <= b < m ensures NoDup(r[b]) {
      OnceNoDup(r, b);
    }
  }

  function Target(c: Config, s: State): int
    requires s.lf > 0.0
  {
    TargetBuckets(s.size, s.lf, c.maxBuckets)
  }

  /** Grows the table by one step when the load factor asks for it; the allocation may fail, which leaves the table as
      it is. */
  function MaybeRehash(c: Config, s: State): (r: State)
    requires Wf(c, s) && s.lf > 0.0 && c.wordSize > 0
    ensures Wf(c, r) && Tends(c, s, r) && Trims(s, r)
  {
    hide Wf, Tends, Trims, EraseAllExpired, Rehash, Target;
    var n := |s.buckets|;
    if n >= Target(c, s) then EraseNone(c, s); s else
    var s1 := EraseAllExpired(c, s, 0, 0);
    LoadFactorKept(c, s, s1);
    if n >= Target(c, s1) then s1 else
    var m := NextBuckets(n, c.wordSize, c.maxBuckets);
    if n >= m || !c.canGrow(s1.tick) then s1 else
    var r := Rehash(c, s1, m);
    RehashTrims(c, s1, r);
    TrimTrans(c, s, s1, r);
    r
  }

  lemma LoadFactorKept(c: Config, s: State, s': State)
    ensures Tends(c, s, s') ==> s'.lf == s.lf
  {
  }

  lemma RehashTrims(c: Config, s: State, r: State)
    requires r == s.(buckets := r.buckets)
    ensures Trims(s, r)
  {
  }
}
