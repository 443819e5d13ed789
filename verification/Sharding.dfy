/** The sharded cache: an array of caches. A product of the hash code selects the one that serves a key. */
module Sharding {
  import opened ElementState
  import opened CacheState
  import opened Evolution
  import opened Operations
  import opened Protocol
  import opened Steps
  import opened Service
  import opened Refinement

  /** The machine word: hash codes are multiplied modulo the number of its values. */
  datatype Word = Bits32 | Bits64 {
    function Values(): (n: nat)
      ensures n > 0
    {
      if Bits32? then 0x1_0000_0000 else 0x1_0000_0000_0000_0000
    }

    function Multiplier(): nat {
      if Bits32? then 0x1001_000f else 0x1000_1000_0001_000f
    }

    /** What undoes the multiplication. */
    function Inverse(): nat {
      if Bits32? then 0x9bcd_eeef else 0xf772_b158_abcd_eeef
    }
  }

  /** The multiplication loses nothing: two hash codes never have the same product. */
  lemma ProductInjective(w: Word, a: nat, b: nat)
    requires a < w.Values() && b < w.Values()
    requires (w.Multiplier() * a) % w.Values() == (w.Multiplier() * b) % w.Values()
    ensures a == b
  {
    var n, m := w.Values(), w.Multiplier();
    var k := m * a / n - m * b / n;
    assert m * (a - b) == k * n;
    if w.Bits32? {
      assert 0x9bcd_eeef * 0x1001_000f == 163412678 * 0x1_0000_0000 + 1;
      assert a - b == 0x1_0000_0000 * (0x9bcd_eeef * k - 163412678 * (a - b));
    } else {
      assert 0xf772_b158_abcd_eeef * 0x1000_1000_0001_000f == 1114423808817848621 * 0x1_0000_0000_0000_0000 + 1;
      assert a - b == 0x1_0000_0000_0000_0000 * (0xf772_b158_abcd_eeef * k - 1114423808817848621 * (a - b));
    }
  }

  datatype Layout = Layout(word: Word, hash: Key -> nat, shards: seq<Config>)

  ghost predicate Proper(l: Layout) {
    |l.shards| > 1 && forall i :: 0 <= i < |l.shards| ==> Valid(l.shards[i]) && l.shards[i].hash == l.hash
  }

  function ShardOf(l: Layout, k: Key): (i: nat)
    requires |l.shards| > 0
    ensures i < |l.shards|
  {
    (l.word.Multiplier() * l.hash(k)) % l.word.Values() % |l.shards|
  }

  lemma MulBetween(n: int, z: int)
    requires n > 0
    ensures -n < n * z < n ==> z == 0
  {
  }

  lemma OneQuotient(y: int, n: int, q: int, r: int, z: int, x: int)
    requires n > 0 && y == n * q + r == n * z + x && 0 <= r < n && 0 <= x < n
    ensures q == z && r == x
  {
    assert n * (q - z) == x - r;
    MulBetween(n, q - z);
  }

  lemma ModShift(x: int, n: nat, z: int)
    requires 0 <= x < n
    ensures (x + n * z) % n == x
  {
    OneQuotient(x + n * z, n, (x + n * z) / n, (x + n * z) % n, z, x);
  }

  /** The multiplication reaches every word. */
  lemma InverseUndoes(w: Word, i: nat)
    requires i < w.Values()
    ensures (w.Multiplier() * ((w.Inverse() * i) % w.Values())) % w.Values() == i
  {
    var n, m, v := w.Values(), w.Multiplier(), w.Inverse();
    var q, h := v * i / n, (v * i) % n;
    assert v * i == q * n + h;
    if w.Bits32? {
      assert m * v == 163412678 * n + 1;
      Undone(m, v, 163412678, n, i, q, h);
      ModShift(i, n, 163412678 * i - m * q);
    } else {
      assert m * v == 1114423808817848621 * n + 1;
      Undone(m, v, 1114423808817848621, n, i, q, h);
      ModShift(i, n, 1114423808817848621 * i - m * q);
    }
  }

  lemma Undone(m: int, v: int, x: int, n: int, i: int, q: int, h: int)
    requires m * v == x * n + 1 && v * i == q * n + h
    ensures m * h == i + n * (x * i - m * q)
  {
    assert m * (v * i) == (m * v) * i == (x * n + 1) * i;
    assert m * (v * i) == m * (q * n + h);
  }

  /** Every shard is selected: the key whose hash is the inverse times `i` is served by shard `i`. */
  lemma EveryShardServes(l: Layout, k: Key, i: nat)
    requires |l.shards| <= l.word.Values() && i < |l.shards|
    requires l.hash(k) == (l.word.Inverse() * i) % l.word.Values()
    ensures ShardOf(l, k) == i
  {
    hide Word.Values, Word.Multiplier, Word.Inverse;
    InverseUndoes(l.word, i);
    SmallShard(i, |l.shards|);
  }

  lemma SmallShard(i: nat, n: nat)
    requires i < n
    ensures i % n == i
  {
  }

  lemma ModMod(p: nat, n: nat, d: nat)
    requires n > 0 && d > 0
    ensures p % (n * d) % n == p % n
  {
    assert n * d > 0;
    var z, r := p / (n * d), p % (n * d);
    assert p == n * (d * z) + r;
    var q, x := r / n, r % n;
    assert p == x + n * (d * z + q);
    ModShift(x, n, d * z + q);
  }

  /** For a number of shards that divides the number of words, such as a power of two, the product need not be
      wrapped. */
  lemma ShardOfProduct(l: Layout, k: Key, d: nat)
    requires |l.shards| > 0 && |l.shards| * d == l.word.Values()
    ensures ShardOf(l, k) == (l.word.Multiplier() * l.hash(k)) % |l.shards|
  {
    ModMod(l.word.Multiplier() * l.hash(k), |l.shards|, d);
  }

  /** A step of one shard. `expire`, `get_if_present` and `get` go to the shard of their key. */
  datatype At = At(shard: nat, step: Step)

  ghost predicate Routed(l: Layout, a: At) {
    a.shard < |l.shards| && forall k :: OfKey(a.step, k) ==> a.shard == ShardOf(l, k)
  }

  /** The elements of a shard have keys of that shard, and a thread waits in one shard at most. */
  ghost predicate ArrayInv(l: Layout, ss: seq<State>) {
    && |ss| == |l.shards|
    && (forall i :: 0 <= i < |ss| ==> Inv(l.shards[i], ss[i]) && AtHome(l, ss[i], i))
    && (forall t, i, j :: 0 <= i < |ss| && 0 <= j < |ss| && t in ss[i].waiters && t in ss[j].waiters ==> i == j)
  }

  ghost predicate AtHome(l: Layout, s: State, i: nat) {
    |l.shards| > 0 && forall id :: id in s.elems ==> ShardOf(l, s.elems[id].key) == i
  }

  ghost predicate ArrayEnabled(l: Layout, ss: seq<State>, a: At)
    requires Proper(l) && ArrayInv(l, ss)
  {
    && Routed(l, a) && Enabled(l.shards[a.shard], ss[a.shard], a.step)
    && (a.step.Get? || a.step.Peek? ==> forall j :: 0 <= j < |ss| ==> a.step.t !in ss[j].waiters)
  }

  // ----- runs of the array

  ghost function ArrayNext(l: Layout, ss: seq<State>, a: At): (r: seq<State>)
    requires Proper(l) && ArrayInv(l, ss) && ArrayEnabled(l, ss, a)
    ensures ArrayInv(l, r)
  {
    var r := ss[a.shard := Next(l.shards[a.shard], ss[a.shard], a.step).s];
    ArrayKept(l, ss, a, r);
    r
  }

  lemma ArrayKept(l: Layout, ss: seq<State>, a: At, r: seq<State>)
    requires Proper(l) && ArrayInv(l, ss) && ArrayEnabled(l, ss, a)
    requires r == ss[a.shard := Next(l.shards[a.shard], ss[a.shard], a.step).s]
    ensures ArrayInv(l, r)
  {
    hide Inv, Next, Enabled, ShardOf, Later;
    var c, s := l.shards[a.shard], ss[a.shard];
    forall id | id in r[a.shard].elems ensures ShardOf(l, r[a.shard].elems[id].key) == a.shard {
      StepKeys(c, s, a.step, id);
    }
    assert AtHome(l, r[a.shard], a.shard);
    forall t | t in r[a.shard].waiters
      ensures forall j :: 0 <= j < |ss| && t in ss[j].waiters ==> j == a.shard
    {
      StepWaiters(c, s, a.step, t);
    }
  }

  ghost predicate ArrayRuns(l: Layout, ss: seq<State>, steps: seq<At>)
    requires Proper(l) && ArrayInv(l, ss)
    decreases |steps|
  {
    steps == [] || (ArrayEnabled(l, ss, steps[0]) && ArrayRuns(l, ArrayNext(l, ss, steps[0]), steps[1..]))
  }

  ghost function ArrayAfter(l: Layout, ss: seq<State>, steps: seq<At>): (r: seq<State>)
    requires Proper(l) && ArrayInv(l, ss) && ArrayRuns(l, ss, steps)
    ensures ArrayInv(l, r)
    decreases |steps|
  {
    if steps == [] then ss else ArrayAfter(l, ArrayNext(l, ss, steps[0]), steps[1..])
  }

  lemma FreshArray(l: Layout, lf: real, held: set<Ptr>, now: int)
    requires Proper(l) && lf > 0.0 && Null !in held
    ensures ArrayInv(l, seq(|l.shards|, _ => Fresh(lf, held, now)))
  {
    hide Inv;
    forall i | 0 <= i < |l.shards| ensures Inv(l.shards[i], Fresh(lf, held, now)) {
      FreshInv(l.shards[i], lf, held, now);
    }
  }

  /** What shard `i` does in a run of the array. */
  function Project(steps: seq<At>, i: nat): seq<Step> {
    if steps == [] then []
    else (if steps[0].shard == i then [steps[0].step] else []) + Project(steps[1..], i)
  }

  /** Seen from any one shard, a run of the array is a run of a plain cache; so all that is proved of the runs of one
      cache holds of every shard. */
  lemma {:induction false} ShardRuns(l: Layout, ss: seq<State>, steps: seq<At>, i: nat)
    requires Proper(l) && ArrayInv(l, ss) && ArrayRuns(l, ss, steps) && i < |ss|
    ensures Runs(l.shards[i], ss[i], Project(steps, i))
    ensures After(l.shards[i], ss[i], Project(steps, i)) == ArrayAfter(l, ss, steps)[i]
    decreases |steps|
  {
    hide Inv, Next, Enabled, Later, AtHome;
    if steps != [] {
      var ss1 := ArrayNext(l, ss, steps[0]);
      ShardRuns(l, ss1, steps[1..], i);
      if steps[0].shard == i {
        assert Project(steps, i)[1..] == Project(steps[1..], i);
      } else {
        assert Project(steps, i) == Project(steps[1..], i);
      }
    }
  }

  // ----- the array as one map

  /** No key is live in two shards, nor twice in one. */
  lemma OneLiveElementInArray(l: Layout, ss: seq<State>, i: nat, id: Id, j: nat, id': Id)
    requires Proper(l) && ArrayInv(l, ss) && i < |ss| && j < |ss|
    requires Live(l.shards[i], ss[i], id) && Live(l.shards[j], ss[j], id')
    requires ss[i].elems[id].key == ss[j].elems[id'].key
    ensures i == j && id == id'
  {
    hide Wf, Known, Locks, Dead, ShardOf;
  }

  ghost predicate ArrayBinds(l: Layout, ss: seq<State>, k: Key, x: Content)
    requires |ss| == |l.shards|
  {
    exists i :: 0 <= i < |ss| && Binds(l.shards[i], ss[i], k, x)
  }

  /** The binding of a key is that of its own shard. */
  lemma BoundAtHome(l: Layout, ss: seq<State>, k: Key, x: Content)
    requires Proper(l) && ArrayInv(l, ss)
    ensures ArrayBinds(l, ss, k, x) <==> Binds(l.shards[ShardOf(l, k)], ss[ShardOf(l, k)], k, x)
  {
    hide Inv, Dead, ShardOf;
    if i :| 0 <= i < |ss| && Binds(l.shards[i], ss[i], k, x) {
      var id :| Live(l.shards[i], ss[i], id) && ss[i].elems[id].key == k && Core(ss[i].elems[id].slot) == x;
      assert AtHome(l, ss[i], i);
    }
  }

  /** The array is one partial map: a key has at most one binding in all shards together. */
  lemma ArrayIsMap(l: Layout, ss: seq<State>, k: Key, x: Content, y: Content)
    requires Proper(l) && ArrayInv(l, ss) && ArrayBinds(l, ss, k, x) && ArrayBinds(l, ss, k, y)
    ensures x == y
  {
    BoundAtHome(l, ss, k, x);
    BoundAtHome(l, ss, k, y);
    hide Wf, Known, Locks, Binds, ShardOf;
    BindsOne(l.shards[ShardOf(l, k)], ss[ShardOf(l, k)], k, x, y);
  }

  /** A request for one key leaves the bindings of all keys of other shards exactly as they are. */
  lemma OtherShardsKept(l: Layout, ss: seq<State>, a: At, k: Key, x: Content)
    requires Proper(l) && ArrayInv(l, ss) && ArrayEnabled(l, ss, a) && a.shard != ShardOf(l, k)
    ensures ArrayBinds(l, ArrayNext(l, ss, a), k, x) <==> ArrayBinds(l, ss, k, x)
  {
    hide Inv, Next, Enabled, Binds, ShardOf, AtHome;
    BoundAtHome(l, ss, k, x);
    BoundAtHome(l, ArrayNext(l, ss, a), k, x);
  }

  ghost predicate Unbound(l: Layout, ss: seq<State>, k: Key)
    requires |ss| == |l.shards|
  {
    forall x :: !ArrayBinds(l, ss, k, x)
  }

  lemma UnboundAtHome(l: Layout, ss: seq<State>, k: Key, s: State)
    requires Proper(l) && ArrayInv(l, ss)
    requires forall x :: !Binds(l.shards[ShardOf(l, k)], s, k, x)
    ensures Unbound(l, ss[ShardOf(l, k) := s], k)
  {
    hide Inv, Dead, ShardOf;
    var ss' := ss[ShardOf(l, k) := s];
    forall x ensures !ArrayBinds(l, ss', k, x) {
      forall i | 0 <= i < |ss'| && i != ShardOf(l, k) ensures !Binds(l.shards[i], ss'[i], k, x) {
        assert AtHome(l, ss[i], i);
      }
    }
  }

  /** `get` on the array is lookup-or-insert on the one map: it answers with the binding of the key in the array, and
      it creates only at a moment when no shard binds the key. */
  lemma ArrayGetRefines(l: Layout, ss: seq<State>, t: Tid, k: Key, made: Made)
    requires Proper(l) && ArrayInv(l, ss)
    requires var i := ShardOf(l, k); t !in ss[i].waiters
    ensures var i := ShardOf(l, k); var r := Operations.Get(l.shards[i], ss[i], t, k, made);
      && (!r.created && r.answer != Threw ==> exists x :: r.answer == Hands(x) && ArrayBinds(l, ss, k, x))
      && (r.created ==> Unbound(l, ss[i := Find(l.shards[i], ss[i], k).s], k))
      && (r.created ==>
            r.answer == if Slow(l.shards[i], ss[i], k) then Returned(Null) else Hands(Core(FirstSlot(made))))
  {
    hide Wf, Known, Locks, Unique, ShardOf, Operations.Get, Binds, Find, AtHome, Unbound, Slow;
    var i := ShardOf(l, k);
    GetRefines(l.shards[i], ss[i], t, k, made);
    if Find(l.shards[i], ss[i], k).Miss? {
      UnboundAtHome(l, ss, k, Find(l.shards[i], ss[i], k).s);
    }
  }

  /** `get_if_present` on the array is the lookup in the one map. */
  lemma ArrayPeekRefines(l: Layout, ss: seq<State>, t: Tid, k: Key)
    requires Proper(l) && ArrayInv(l, ss)
    requires t !in ss[ShardOf(l, k)].waiters
    ensures var i := ShardOf(l, k); var r := Operations.Peek(l.shards[i], ss[i], t, k);
      && (!r.answer.Absent? ==> exists x :: r.answer == Hands(x) && ArrayBinds(l, ss, k, x))
      && (r.answer.Absent? ==> Unbound(l, ss[i := r.s], k))
  {
    hide Wf, Known, Locks, Unique, ShardOf, Operations.Peek, Binds, AtHome, Unbound;
    var i := ShardOf(l, k);
    var r := Operations.Peek(l.shards[i], ss[i], t, k);
    PeekRefines(l.shards[i], ss[i], t, k);
    if r.answer.Absent? {
      UnboundAtHome(l, ss, k, r.s);
    }
  }

  lemma OnlyAtHome(l: Layout, ss: seq<State>, j: nat, id: Id)
    requires ArrayInv(l, ss) && j < |ss| && id in ss[j].elems
    ensures j == ShardOf(l, ss[j].elems[id].key)
  {
    hide Inv, ShardOf;
    assert AtHome(l, ss[j], j);
  }

  /** In state `r` of the shard of key `k`, all elements of the key that are in the array are dead. */
  ghost predicate AllDied(l: Layout, ss: seq<State>, k: Key, r: State)
    requires |ss| == |l.shards| > 0
  {
    var i := ShardOf(l, k);
    forall j, id :: 0 <= j < |ss| && id in ss[j].elems && ss[j].elems[id].key == k ==>
      j == i && Dead(l.shards[i], r, ss[j].elems[id])
  }

  lemma HomeDied(l: Layout, ss: seq<State>, k: Key, r: State)
    requires Proper(l) && ArrayInv(l, ss)
    requires var s := ss[ShardOf(l, k)];
      forall id :: id in s.elems && s.elems[id].key == k ==> Dead(l.shards[ShardOf(l, k)], r, s.elems[id])
    ensures AllDied(l, ss, k, r)
  {
    hide Inv, ShardOf, Dead;
    forall j, id | 0 <= j < |ss| && id in ss[j].elems && ss[j].elems[id].key == k ensures j == ShardOf(l, k) {
      OnlyAtHome(l, ss, j, id);
    }
  }

  /** `expire` on the array removes the key from the one map, unless it is bound to a creation that still runs. */
  lemma ArrayForgetRefines(l: Layout, ss: seq<State>, k: Key)
    requires Proper(l) && ArrayInv(l, ss)
    ensures var i := ShardOf(l, k); var r := Operations.Forget(l.shards[i], ss[i], k);
      && (r.found ==> exists x :: ArrayBinds(l, ss, k, x))
      && ((forall x :: ArrayBinds(l, ss, k, x) ==> !x.Future?) ==> Unbound(l, ss[i := r.s], k))
      && (!r.found ==> Unbound(l, ss[i := r.s], k) && AllDied(l, ss, k, r.s))
      && (Quiet(l.shards[i]) && Unaged(l.shards[i], ss[i]) ==> (r.found <==> exists x :: ArrayBinds(l, ss, k, x)))
  {
    hide Inv, ShardOf, Operations.Forget, Binds, AtHome, Unbound, Quiet, Unaged, Dead;
    var i := ShardOf(l, k);
    var c, s := l.shards[i], ss[i];
    var r := Operations.Forget(c, s, k);
    ForgetRefines(c, s, k);
    if !r.found {
      HomeDied(l, ss, k, r.s);
    }
    if Quiet(c) && Unaged(c, s) {
      ForgetExact(c, s, k);
      if x :| ArrayBinds(l, ss, k, x) {
        BoundAtHome(l, ss, k, x);
      }
    }
    if r.found {
      var x :| Binds(c, s, k, x) && (x.Value? ==> forall y :: !Binds(c, r.s, k, y));
      assert ArrayBinds(l, ss, k, x);
      BoundContent(c, s, k, x);
      if x.Value? {
        UnboundAtHome(l, ss, k, r.s);
      }
    } else {
      UnboundAtHome(l, ss, k, r.s);
    }
  }

  // ----- pointer stability of the array

  /** Every `get` and `get_if_present` of key `k` in the run of the array is answered by one of `answers`, and none
      creates. */
  ghost predicate ArrayServes(l: Layout, ss: seq<State>, steps: seq<At>, k: Key, answers: set<Answer>)
    requires Proper(l) && ArrayInv(l, ss) && ArrayRuns(l, ss, steps)
    decreases |steps|
  {
    steps != [] ==>
      var h := steps[0];
      var r := Next(l.shards[h.shard], ss[h.shard], h.step);
      && ((h.step.Get? || h.step.Peek?) && h.step.k == k ==> r.answer in answers && !r.created)
      && ArrayServes(l, ArrayNext(l, ss, h), steps[1..], k, answers)
  }

  lemma {:induction false} HomeServes(l: Layout, ss: seq<State>, steps: seq<At>, k: Key, answers: set<Answer>)
    requires Proper(l) && ArrayInv(l, ss) && ArrayRuns(l, ss, steps)
    requires var i := ShardOf(l, k);
      Runs(l.shards[i], ss[i], Project(steps, i)) && Serves(l.shards[i], ss[i], Project(steps, i), k, answers)
    ensures ArrayServes(l, ss, steps, k, answers)
    decreases |steps|
  {
    hide Inv, Next, Enabled, Later, AtHome, ShardOf;
    if steps != [] {
      var i := ShardOf(l, k);
      var ss1 := ArrayNext(l, ss, steps[0]);
      if steps[0].shard == i {
        assert Project(steps, i)[1..] == Project(steps[1..], i);
      } else {
        assert Project(steps, i) == Project(steps[1..], i);
        assert !OfKey(steps[0].step, k);
      }
      HomeServes(l, ss1, steps[1..], k, answers);
    }
  }

  /** Stability holds for the array, from a resolved or a pending element: steps of other shards cannot disturb it, and
      no other shard answers for the key. */
  lemma ArrayStable(l: Layout, ss: seq<State>, steps: seq<At>, i: nat, id: Id, k: Key, f: Fut, v: Ptr)
    requires Proper(l) && ArrayInv(l, ss) && ArrayRuns(l, ss, steps) && i < |ss|
    requires Bears(ss[i], id, k, f, v)
    requires forall j :: 0 <= j < |steps| ==> !(steps[j].step.Forget? && steps[j].step.k == k)
    requires Sustains(l.shards[i], ArrayAfter(l, ss, steps)[i], ss[i].elems[id], f, v)
    ensures ArrayServes(l, ss, steps, k, {Waiting(f), Returned(v)})
    ensures Core(ss[i].elems[id].slot) == Value(v) ==> ArrayServes(l, ss, steps, k, {Returned(v)})
  {
    hide Inv, Next, Enabled, Later, ShardOf, Alive, Serves, Runs, After, ArrayServes;
    assert ShardOf(l, k) == i by { assert AtHome(l, ss[i], i); }
    ShardRuns(l, ss, steps, i);
    NotGone(steps, i, k);
    AsyncStable(l.shards[i], ss[i], Project(steps, i), id, k, f, v);
    HomeServes(l, ss, steps, k, {Waiting(f), Returned(v)});
    if Core(ss[i].elems[id].slot) == Value(v) {
      PointerStable(l.shards[i], ss[i], Project(steps, i), id, v);
      HomeServes(l, ss, steps, k, {Returned(v)});
    }
  }

  lemma {:induction false} NotGone(steps: seq<At>, i: nat, k: Key)
    requires forall j :: 0 <= j < |steps| ==> !(steps[j].step.Forget? && steps[j].step.k == k)
    ensures k !in GoneIn(Project(steps, i))
  {
    if steps != [] {
      NotGone(steps[1..], i, k);
      if steps[0].shard == i {
        assert Project(steps, i)[1..] == Project(steps[1..], i);
        assert k !in Gone(steps[0].step);
      } else {
        assert Project(steps, i) == Project(steps[1..], i);
      }
    }
  }
}
