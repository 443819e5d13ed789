/** What the erasing walks leave behind: they only take dead, unlocked elements away, and they miss none on their way.
    */
module Pruning {
  import opened Sequences
  import opened CacheState
  import opened Maintenance
  import opened Lookup
  import opened Resize

  /** The members of `l` that are in `keep`, in their order. */
  function Those(l: seq<Id>, keep: set<Id>): (r: seq<Id>)
    ensures forall x :: x in r <==> x in l && x in keep
  {
    if l == [] then [] else (if l[0] in keep then [l[0]] else []) + Those(l[1..], keep)
  }

  lemma {:induction false} ThoseAll(l: seq<Id>, keep: set<Id>)
    requires forall x :: x in l ==> x in keep
    ensures Those(l, keep) == l
  {
    if l != [] {
      ThoseAll(l[1..], keep);
    }
  }

  lemma {:induction false} ThoseThose(l: seq<Id>, keep: set<Id>, keep': set<Id>)
    requires keep' <= keep
    ensures Those(Those(l, keep), keep') == Those(l, keep')
  {
    if l != [] {
      ThoseThose(l[1..], keep, keep');
      var t := Those(l[1..], keep);
      if l[0] in keep {
        assert Those(l, keep)[0] == l[0] && Those(l, keep)[1..] == t;
      } else {
        assert Those(l, keep) == t;
      }
    }
  }

  lemma {:induction false} ThoseRemoved(l: seq<Id>, keep: set<Id>, x: Id)
    requires NoDup(l) && forall y :: y in l ==> y in keep
    ensures Those(l, keep - {x}) == Remove(l, x)
  {
    if l != [] {
      assert forall i :: 0 < i < |l| ==> l[i] != l[0];
      assert NoDup(l[1..]);
      if l[0] == x {
        ThoseAll(l[1..], keep - {x});
      } else {
        hide NoDup;
        ThoseRemoved(l[1..], keep, x);
      }
    }
  }

  /** `r` is `s` without some elements: all others are as they were, and the queue keeps its order. */
  ghost predicate Pruned(s: State, r: State) {
    && r.elems.Keys <= s.elems.Keys && (forall id :: id in r.elems ==> r.elems[id] == s.elems[id])
    && r.queue.All() == Those(s.queue.All(), r.elems.Keys) && (r.elems == s.elems ==> r.queue == s.queue)
  }

  lemma PrunedRefl(c: Config, s: State, r: State)
    requires r.elems == s.elems && r.queue == s.queue
    ensures Wf(c, s) ==> Pruned(s, r)
  {
    if Wf(c, s) {
      ThoseAll(s.queue.All(), s.elems.Keys);
    }
  }

  lemma PrunedTrans(s: State, s': State, s'': State)
    ensures Pruned(s, s') && Pruned(s', s'') ==> Pruned(s, s'')
  {
    if Pruned(s, s') && Pruned(s', s'') {
      ThoseThose(s.queue.All(), s'.elems.Keys, s''.elems.Keys);
    }
  }

  lemma ErasePruned(c: Config, s: State, id: Id)
    requires Wf(c, s) && id in s.elems && s.elems[id].useCount == 0 && Dead(c, s, s.elems[id])
    ensures Pruned(s, Erase(c, s, id))
  {
    hide Chained, Coupled, Accounted, Dead, Those, Erase, NoDup;
    ThoseRemoved(s.queue.All(), s.elems.Keys, id);
    assert (s.elems - {id}).Keys == s.elems.Keys - {id};
  }

  lemma SweepPruned(c: Config, s: State, id: Id)
    requires Wf(c, s) && id in s.elems
    ensures Pruned(s, Sweep(c, s, id).s)
  {
    hide Wf, Tends, Observe, Home, Dead, Pruned, Erase, Trims;
    var s1 := Observe(c, s);
    ExpiredIsDead(c, s1, id);
    PrunedRefl(c, s, s1);
    if IsExpired(c, s1, s1.elems[id]) && s1.elems[id].useCount == 0 {
      ErasePruned(c, s1, id);
      PrunedTrans(s, s1, Erase(c, s1, id));
    }
  }

  lemma LookAtPruned(c: Config, s: State, id: Id, k: Key, recheck: bool)
    requires Wf(c, s) && id in s.elems
    ensures Pruned(s, LookAt(c, s, id, k, recheck).s)
  {
    hide Wf, Tends, Trims, Sweep, Observe, Home, Dead, IsExpired, Pruned;
    var r := Sweep(c, s, id);
    SweepPruned(c, s, id);
    PrunedRefl(c, r.s, Observe(c, r.s));
    PrunedTrans(s, r.s, Observe(c, r.s));
  }

  lemma {:induction false} ScanPruned(c: Config, s: State, b: nat, i: nat, k: Key, recheck: bool)
    requires Wf(c, s) && b < |s.buckets| && b == Home(c, |s.buckets|, k)
    requires i <= |s.buckets[b]| && DeadBefore(c, s, b, i, k)
    ensures Pruned(s, Scan(c, s, b, i, k, recheck).s)
    decreases |s.buckets[b]| - i
  {
    hide Wf, Tends, Trims, Home, LookAt, DeadBefore, FoundOk, Pruned;
    PrunedRefl(c, s, s);
    if i < |s.buckets[b]| {
      ChainWf(c, s, b);
      var id := s.buckets[b][i];
      var v := LookAt(c, s, id, k, recheck);
      VisitStays(c, s, b, i, k, v);
      VisitLeaves(c, s, b, i, k, v);
      LookAtPruned(c, s, id, k, recheck);
      if !v.Matches? {
        var j := if v.Stays? then i + 1 else i;
        ScanPruned(c, v.s, b, j, k, recheck);
        PrunedTrans(s, v.s, Scan(c, v.s, b, j, k, recheck).s);
      }
    }
  }

  lemma {:induction false} EraseAllPruned(c: Config, s: State, b: nat, i: nat)
    requires Wf(c, s) && b <= |s.buckets| && (b < |s.buckets| ==> i <= |s.buckets[b]|)
    ensures Pruned(s, EraseAllExpired(c, s, b, i))
    decreases |s.buckets| - b, if b < |s.buckets| then |s.buckets[b]| - i else 0
  {
    hide Wf, Tends, Trims, Home, Sweep, Pruned;
    if b == |s.buckets| {
      PrunedRefl(c, s, s);
    } else if i == |s.buckets[b]| {
      EraseAllPruned(c, s, b + 1, 0);
    } else {
      ChainWf(c, s, b);
      var id := s.buckets[b][i];
      var w := Sweep(c, s, id);
      SweptBuckets(c, s, b, i, w);
      SweepPruned(c, s, id);
      var j := if w.Drops? then i else i + 1;
      EraseAllPruned(c, w.s, b, j);
      PrunedTrans(s, w.s, EraseAllExpired(c, w.s, b, j));
    }
  }

  lemma MaybeRehashPruned(c: Config, s: State)
    requires Wf(c, s) && s.lf > 0.0 && c.wordSize > 0
    ensures Pruned(s, MaybeRehash(c, s))
  {
    hide Wf, Tends, Trims, EraseAllExpired, Rehash, Target, Pruned;
    PrunedRefl(c, s, s);
    if |s.buckets| < Target(c, s) {
      var s1 := EraseAllExpired(c, s, 0, 0);
      EraseAllPruned(c, s, 0, 0);
      PrunedRefl(c, s1, MaybeRehash(c, s));
      PrunedTrans(s, s1, MaybeRehash(c, s));
      LoadFactorKept(c, s, s1);
    }
  }

  // ----- nothing dead is left behind

  /** Element `x` is dead and not locked. */
  ghost predicate Doomed(c: Config, s: State, x: Id) {
    x in s.elems && s.elems[x].useCount == 0 && Dead(c, s, s.elems[x])
  }

  /** Element `r.id` stands in bucket `b` of `s` at a position from `i` on, before `j`. */
  ghost predicate HitBefore(s: State, b: nat, i: nat, j: nat, r: Found) {
    r.Hit? && b < |s.buckets| && exists h :: i <= h < j && h < |s.buckets[b]| && s.buckets[b][h] == r.id
  }

  /** The walk erases every dead, unlocked element that stands before the match, and without a match all of them. */
  lemma {:induction false} ScanClears(c: Config, s: State, b: nat, i: nat, k: Key, recheck: bool, j: nat)
    requires Wf(c, s) && b < |s.buckets| && b == Home(c, |s.buckets|, k)
    requires i <= j < |s.buckets[b]| && DeadBefore(c, s, b, i, k)
    requires Doomed(c, s, s.buckets[b][j])
    ensures var r := Scan(c, s, b, i, k, recheck); s.buckets[b][j] !in r.s.elems || HitBefore(s, b, i, j, r)
    decreases |s.buckets[b]| - i
  {
    hide Wf, Tends, Home, LookAt, DeadBefore, Doomed, HitBefore, VisitOk, ScanOk, NoDup;
    ChainWf(c, s, b);
    var x := s.buckets[b][i];
    var v := LookAt(c, s, x, k, recheck);
    VisitStays(c, s, b, i, k, v);
    VisitLeaves(c, s, b, i, k, v);
    VisitShape(c, s, b, i, k, v);
    if i == j {
      LookAtDead(c, s, x, k, recheck);
      GoneInScan(c, v.s, b, i, k, recheck, x);
    } else if v.Matches? {
      MatchBefore(s, b, i, j, Scan(c, s, b, i, k, recheck));
    } else {
      DistinctAt(s.buckets[b], i, j);
      OtherStaysDead(c, s, x, k, recheck, s.buckets[b][j]);
      if v.Stays? {
        ScanClears(c, v.s, b, i + 1, k, recheck, j);
        BeforeSooner(s, v.s, b, i, j, Scan(c, v.s, b, i + 1, k, recheck));
      } else {
        ScanClears(c, v.s, b, i, k, recheck, j - 1);
        BeforeShifted(s, v.s, b, i, j, Scan(c, v.s, b, i, k, recheck));
      }
    }
  }

  /** What a visit does to the chain. */
  lemma VisitShape(c: Config, s: State, b: nat, i: nat, k: Key, v: Visit)
    requires Wf(c, s) && b < |s.buckets| && i < |s.buckets[b]| && s.buckets[b][i] in s.elems
    requires Home(c, |s.buckets|, s.elems[s.buckets[b][i]].key) == b && VisitOk(c, s, s.buckets[b][i], k, v)
    ensures Wf(c, v.s) && |v.s.buckets| == |s.buckets|
    ensures !v.Leaves? ==> v.s.buckets == s.buckets
    ensures v.Leaves? ==>
      v.s.buckets[b] == s.buckets[b][..i] + s.buckets[b][i + 1..] && s.buckets[b][i] !in v.s.elems
  {
    ChainWf(c, s, b);
    RemoveAt(s.buckets[b], i);
    hide Wf, Tends, Trims, Home, NoDup, Remove;
  }

  lemma GoneInScan(c: Config, s: State, b: nat, i: nat, k: Key, recheck: bool, x: Id)
    requires Wf(c, s) && b < |s.buckets| && b == Home(c, |s.buckets|, k)
    requires i <= |s.buckets[b]| && DeadBefore(c, s, b, i, k) && x !in s.elems
    ensures x !in Scan(c, s, b, i, k, recheck).s.elems
  {
    hide Wf, Trims, Home, DeadBefore, FoundOk, Scan;
    StaysGone(c, s, Scan(c, s, b, i, k, recheck).s, x);
  }

  lemma DistinctAt(l: seq<Id>, i: nat, j: nat)
    requires NoDup(l) && i < j < |l|
    ensures l[i] != l[j]
  {
  }

  lemma StaysGone(c: Config, s: State, r: State, x: Id)
    ensures Tends(c, s, r) && x !in s.elems ==> x !in r.elems
  {
  }

  lemma OtherStaysDead(c: Config, s: State, id: Id, k: Key, recheck: bool, x: Id)
    requires Wf(c, s) && id in s.elems && x != id && Doomed(c, s, x)
    ensures Doomed(c, LookAt(c, s, id, k, recheck).s, x)
  {
    hide Wf, Trims, LookAt, Home, Alive;
    var r := LookAt(c, s, id, k, recheck).s;
    DeadStays(c, s, r, s.elems[x], s.elems[x]);
  }

  lemma MatchBefore(s: State, b: nat, i: nat, j: nat, r: Found)
    requires b < |s.buckets| && i < j && i < |s.buckets[b]|
    ensures r.Hit? && r.id == s.buckets[b][i] ==> HitBefore(s, b, i, j, r)
  {
  }

  lemma BeforeSooner(s: State, s': State, b: nat, i: nat, j: nat, r: Found)
    requires s'.buckets == s.buckets
    ensures HitBefore(s', b, i + 1, j, r) ==> HitBefore(s, b, i, j, r)
  {
  }

  lemma BeforeShifted(s: State, s': State, b: nat, i: nat, j: nat, r: Found)
    requires b < |s.buckets| && i < j < |s.buckets[b]| && b < |s'.buckets|
    requires s'.buckets[b] == s.buckets[b][..i] + s.buckets[b][i + 1..]
    ensures HitBefore(s', b, i, j - 1, r) ==> HitBefore(s, b, i, j, r)
  {
    if HitBefore(s', b, i, j - 1, r) {
      var h :| i <= h < j - 1 && h < |s'.buckets[b]| && s'.buckets[b][h] == r.id;
      assert s.buckets[b][h + 1] == r.id;
    }
  }

  lemma LookAtDead(c: Config, s: State, id: Id, k: Key, recheck: bool)
    requires Wf(c, s) && Doomed(c, s, id)
    ensures id in s.elems && LookAt(c, s, id, k, recheck).Leaves?
  {
    hide Wf, Tends, Trims, Sweep, Observe, Dead;
    SweepErases(c, s, id);
  }
}
