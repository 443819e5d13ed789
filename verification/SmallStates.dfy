/** Small states of a cache in a quiet world, at which a plain reading of a promise fails. */
module SmallStates {
  import opened QueueModel
  import opened ElementState
  import opened CacheState
  import opened Lookup
  import opened Evolution
  import opened Operations
  import opened Protocol
  import opened Pruning
  import opened Trimming
  import opened Effects
  import opened Refinement

  /** All keys share one bucket, and nothing happens outside. */
  function Calmly(maxSize: Option<nat>, accessExpire: Option<nat>, maxAge: Option<nat>): Config {
    Config(_ => 0, true, false, maxSize, accessExpire, maxAge, 1000, 0x1_0000_0000, _ => true, _ => Env({}, {}, 0))
  }

  /** Two elements; the first one is on the hot list, the second one on the cold list or on none. */
  function Two(e: Elem, e': Elem, both: bool, held: set<Ptr>, now: int): State {
    State(map[0 := e, 1 := e'], [[0, 1], [], []], Queue([0], if both then [1] else []), 2, 1.0, map[], map[], held, {},
          {1, 2}, now, 0, 2, [])
  }

  /** Elements with different keys, whose strength agrees with their place. */
  predicate Fit(e: Elem, e': Elem, both: bool, held: set<Ptr>) {
    && e.useCount == 0 == e'.useCount && e.key != e'.key
    && e.slot.Strong? && e.slot.v in {1, 2}
    && (if both then e'.slot.Strong? else e'.slot.Weak?) && e'.slot.v in {1, 2}
    && held <= {1, 2}
  }

  lemma TwoWf(c: Config, e: Elem, e': Elem, both: bool, held: set<Ptr>, now: int)
    requires Fit(e, e', both, held) && (forall k :: c.hash(k) == 0)
    ensures Wf(c, Two(e, e', both, held, now))
  {
    var s := Two(e, e', both, held, now);
    TwoChained(c, e, e', both, held, now);
    assert s.queue.All() == if both then [0, 1] else [0];
    hide Chained, Accounted;
  }

  lemma TwoChained(c: Config, e: Elem, e': Elem, both: bool, held: set<Ptr>, now: int)
    requires forall k :: c.hash(k) == 0
    ensures var s := Two(e, e', both, held, now); Chained(c, s) && Accounted(s)
  {
    var s := Two(e, e', both, held, now);
    assert s.elems.Keys == {0, 1} && |s.elems| == 2;
    forall k ensures Home(c, 3, k) == 0 {}
    hide Home;
  }

  lemma TwoKnown(c: Config, e: Elem, e': Elem, both: bool, held: set<Ptr>, now: int)
    requires Fit(e, e', both, held)
    ensures var s := Two(e, e', both, held, now); Known(s) && Locks(c, s) && Unique(c, s)
    ensures var s := Two(e, e', both, held, now); Alive(s, e.slot.v) && (both ==> Alive(s, e'.slot.v))
  {
    var s := Two(e, e', both, held, now);
    assert Holds(s.futs, s.elems[0].slot, e.slot.v) && (both ==> Holds(s.futs, s.elems[1].slot, e'.slot.v));
    forall v | Alive(s, v) ensures v in {1, 2} {}
    hide Alive;
  }

  lemma TwoInv(c: Config, e: Elem, e': Elem, both: bool, held: set<Ptr>, now: int)
    requires Fit(e, e', both, held) && forall k :: c.hash(k) == 0
    requires c.maxSize.Some? ==> (if both then 2 else 1) <= c.maxSize.value
    ensures Inv(c, Two(e, e', both, held, now))
  {
    TwoWf(c, e, e', both, held, now);
    TwoKnown(c, e, e', both, held, now);
    hide Wf, Known, Locks, Unique;
  }

  /** The queue may hold one element, and element 0 is on it; element 1 was evicted, but a caller holds its value. */
  function OneRoom(): State {
    Two(Elem(0, Strong(1), 0, 0, 0), Elem(1, Weak(2), 0, 0, 0), false, {1, 2}, 0)
  }

  /** A hit of element 1 finds no room for it: the one hot element stays, and the element that was hit is evicted at
      once. */
  lemma HitWithoutRoom(t: Tid, made: Made) returns (c: Config, s: State)
    ensures Valid(c) && Inv(c, s) && c.maxSize == Some(1) && t !in s.waiters
    ensures Find(c, s, 1).Hit? && 1 !in Operations.Get(c, s, t, 1, made).s.queue.All()
  {
    c, s := Calmly(Some(1), None, None), OneRoom();
    TwoInv(c, Elem(0, Strong(1), 0, 0, 0), Elem(1, Weak(2), 0, 0, 0), false, {1, 2}, 0);
    var f := OneRoomFound(c, s);
    hide Inv, Find, Operations.Get, Alive;
    GetHitLinks(c, s, t, 1, made);
  }

  lemma OneRoomFound(c: Config, s: State) returns (f: Found)
    requires Quiet(c) && c.maxAge.None? && s == OneRoom() && Inv(c, s)
    ensures f == Find(c, s, 1) && f.Hit? && f.id == 1 && f.s.queue == s.queue
  {
    OneRoomLives(c);
    InvWf(c, s);
    hide Inv, Find, Alive, Scan, ScanOk, Wf, Dead, Unaged, Calm, Tends, Quiet, OneRoom, Two;
    f := Find(c, s, 1);
    FindCalm(c, s, 1);
    StillThere(c, s, f.s, 0, 1);
    StillThere(c, s, f.s, 1, 2);
    PrunedSame(s, f.s);
    DeadAlready(c, s, f.s, s.elems[1]);
    MissedDead(c, s, 1, f);
    if f.Hit? {
      FoundLive(c, s, 1, f);
    }
  }

  lemma OneRoomLives(c: Config)
    requires c.maxAge.None?
    ensures var s := OneRoom();
      && Alive(s, 1) && Alive(s, 2) && Unaged(c, s) && !Dead(c, s, s.elems[1])
      && s.elems.Keys == {0, 1} && s.elems[0].key == 0 && s.elems[1].key == 1
      && Core(s.elems[0].slot) == Value(1) && Core(s.elems[1].slot) == Value(2)
  {
  }

  lemma PrunedSame(s: State, r: State)
    requires s.elems.Keys == {0, 1} && 0 in r.elems && 1 in r.elems && Pruned(s, r)
    ensures r.elems == s.elems && r.queue == s.queue
  {
    hide Those;
  }

  lemma FindCalm(c: Config, s: State, k: Key)
    requires Quiet(c) && Wf(c, s)
    ensures ScanOk(c, s, k, Find(c, s, k)) && Calm(c, s, Find(c, s, k).s) && Tends(c, s, Find(c, s, k).s)
    ensures Pruned(s, Find(c, s, k).s)
  {
    hide Wf, Scan, Calm, Tends, FoundOk, Pruned, Quiet;
    DeadBeforeNone(c, s, BucketOf(c, s, k), k);
    ScanCalm(c, s, BucketOf(c, s, k), 0, k, true);
    ScanPruned(c, s, BucketOf(c, s, k), 0, k, true);
  }

  /** An element whose value is still alive is not erased before its age limit. */
  lemma StillThere(c: Config, s: State, r: State, id: Id, v: Ptr)
    requires Tends(c, s, r) && Calm(c, s, r) && Unaged(c, s) && Alive(s, v) && v != Null
    requires id in s.elems && Core(s.elems[id].slot) == Value(v)
    ensures id in r.elems
  {
    hide Alive;
  }

  // ----- `expire` and a pointer that two elements share

  /** Element 0 is past its age limit and owns the value that element 1 refers to. */
  function Shared(): State {
    Two(Elem(0, Strong(1), 0, 5, 0), Elem(7, Weak(1), 0, 500, 0), false, {}, 100)
  }

  /** In a quiet world key 7 is bound, and yet `expire` finds nothing: its walk erases the aged element before it, and
      with that the last reference to the value. */
  lemma ExpireFindsNothing() returns (c: Config, s: State)
    ensures Valid(c) && Inv(c, s) && Quiet(c) && Binds(c, s, 7, Value(1)) && !Operations.Forget(c, s, 7).found
  {
    c, s := Calmly(None, None, Some(1)), Shared();
    SharedFacts(c);
    TwoInv(c, Elem(0, Strong(1), 0, 5, 0), Elem(7, Weak(1), 0, 500, 0), false, {}, 100);
    assert Live(c, s, 1) by { hide Inv, Alive; }
    assert Binds(c, s, 7, Value(1)) by { hide Inv, Alive; }
    hide Inv, Shared, Two, Binds, Alive, Calmly;
    SharedMisses(c, s);
  }

  lemma SharedFacts(c: Config)
    requires c == Calmly(None, None, Some(1))
    ensures var s := Shared();
      && s.elems.Keys == {0, 1} && s.elems[0].key == 0 && s.elems[1].key == 7
      && |s.buckets| == 3 && s.buckets[0] == [0, 1]
      && s.elems[0].useCount == 0 && Dead(c, s, s.elems[0]) && s.elems[1].slot == Weak(1) && Alive(s, 1)
      && !Dead(c, s, s.elems[1]) && s.held == {} && s.pinned == {} && s.waiters == map[]
    ensures Quiet(c) && Home(c, 3, 7) == 0
  {
    var s := Shared();
    assert Holds(s.futs, s.elems[0].slot, 1);
  }

  lemma SharedMisses(c: Config, s: State)
    requires Inv(c, s) && Quiet(c) && s.elems.Keys == {0, 1} && s.elems[0].key == 0 && s.elems[1].key == 7
    requires |s.buckets| == 3 && s.buckets[0] == [0, 1] && Home(c, 3, 7) == 0
    requires s.elems[0].useCount == 0 && Dead(c, s, s.elems[0]) && s.elems[1].slot == Weak(1)
    requires s.held == {} && s.pinned == {} && s.waiters == map[]
    ensures !Operations.Forget(c, s, 7).found
  {
    InvWf(c, s);
    hide Inv, Wf, Dead, Alive, Scan, ScanOk, Tends, Calm, Strike, Home, Quiet, Pruned;
    var f := Sought(c, s, 7, false);
    SearchClears(c, s, 7, false, 0);
    SearchCalm(c, s, 7, false);
    SearchPruned(c, s, 7, false);
    SharedGone(c, s, f);
  }

  lemma SearchPruned(c: Config, s: State, k: Key, recheck: bool)
    requires Wf(c, s)
    ensures Pruned(s, Sought(c, s, k, recheck).s)
  {
    hide Wf, Scan, ScanOk, Pruned;
    DeadBeforeNone(c, s, BucketOf(c, s, k), k);
    ScanPruned(c, s, BucketOf(c, s, k), 0, k, recheck);
  }

  lemma SharedGone(c: Config, s: State, f: Found)
    requires ScanOk(c, s, 7, f) && Calm(c, s, f.s) && Pruned(s, f.s) && 0 !in f.s.elems
    requires s.elems.Keys == {0, 1} && s.elems[1].slot == Weak(1)
    requires s.held == {} && s.pinned == {} && s.waiters == map[]
    ensures f.Miss?
  {
    hide Wf, Those;
  }

  // ----- a stale element that is left at the cold end

  /** Two elements with fresh deadlines on a queue for two. */
  function BothFresh(): State {
    Two(Elem(0, Strong(1), 0, 0, 200), Elem(1, Strong(2), 0, 0, 200), true, {1, 2}, 100)
  }

  /** A creation that took longer than the access deadline allows, on a full queue: the fresh element behind the new
      one is cut for its size, and the stale new one is left at the cold end. */
  lemma StaleIsLeft() returns (c: Config, s: State)
    ensures Valid(c) && Inv(c, s) && c.accessExpire == Some(10) && c.maxSize == Some(2) && Admissible(c, s, Ready(3))
    ensures var r := Create(c, s, 2, Ready(3), 0);
      r.queue.All() == [0, 2] && 2 in r.elems && r.elems[2].access < s.now
  {
    c, s := Calmly(Some(2), Some(10), None), BothFresh();
    TwoInv(c, Elem(0, Strong(1), 0, 0, 200), Elem(1, Strong(2), 0, 0, 200), true, {1, 2}, 100);
    assert Known(s) && Wf(c, s) by { hide Known, Wf; }
    assert s.nextId == 2 && s.queue == Queue([0], [1]) && s.now == 100 && s.held == {1, 2};
    assert s.elems[1] == Elem(1, Strong(2), 0, 0, 200) && s.elems.Keys == {0, 1};
    BothOrder(s);
    hide Inv, Known, Wf, Two, BothFresh, Create, TrimmedAt;
    CreateTrims(c, s, 2, Ready(3), 0);
    var r := Create(c, s, 2, Ready(3), 0);
    var m: nat, n: nat :| TrimmedAt(c, s, r, 2, [0, 2, 1], r.queue.All(), m, n);
    CreateStill(c, s, 2, Ready(3), 0);
    BothCut(c, s, r, m, n);
  }

  lemma BothOrder(s: State)
    requires s.queue == Queue([0], [1])
    ensures Moved(s.queue, 2) == [0, 2, 1]
  {
    assert s.queue.All() == [0, 1];
  }

  lemma CreateStill(c: Config, s: State, k: Key, made: Made, at: int)
    requires Quiet(c) && Wf(c, s) && !made.Throws?
    ensures var r := Create(c, s, k, made, at); r.now == s.now && r.held == s.held
  {
    hide Wf, Tends, AfterInsert, Quiet, Home;
    WfFrame(c, s, Invent(s, made, Late(c, s, at)));
    var s2 := Insert(c, Invent(s, made, Late(c, s, at)), k, FirstSlot(made), at);
    AfterInsertStill(c, s2);
  }

  lemma BothCut(c: Config, s: State, r: State, m: nat, n: nat)
    requires c.queued && c.maxSize == Some(2) && c.accessExpire == Some(10) && c.maxAge.None?
    requires TrimmedAt(c, s, r, 2, [0, 2, 1], r.queue.All(), m, n)
    requires r.now == s.now == 100 && 2 in r.held
    requires s.elems.Keys == {0, 1} && s.elems[1] == Elem(1, Strong(2), 0, 0, 200)
    ensures r.queue.All() == [0, 2]
  {
    var q := [0, 2, 1];
    assert Alive(r, 2);
    hide Alive;
    assert q[2] == 1;
    assert m == 3 && n == 3;
    assert q[..3][..2] == [0, 2];
  }
}
