/** Lists, queues and chains seen through a function on their members: every operation on them commutes with it, as long
    as it tells the members apart. */
module Mapping {
  import opened Sequences
  import opened QueueModel
  import opened HashChains

  function Map<T, U>(f: T -> U, s: seq<T>): (r: seq<U>)
    ensures |r| == |s| && forall i :: 0 <= i < |s| ==> r[i] == f(s[i])
  {
    seq(|s|, i requires 0 <= i < |s| => f(s[i]))
  }

  lemma MapConcat<T, U>(f: T -> U, s: seq<T>, t: seq<T>)
    ensures Map(f, s + t) == Map(f, s) + Map(f, t)
  {
  }

  lemma MapCons<T, U>(f: T -> U, x: T, s: seq<T>)
    ensures Map(f, [x] + s) == [f(x)] + Map(f, s)
  {
  }

  lemma MapGap<T, U>(f: T -> U, s: seq<T>, i: nat)
    requires i < |s|
    ensures Map(f, s[..i] + s[i + 1..]) == Map(f, s)[..i] + Map(f, s)[i + 1..]
  {
  }

  lemma MapSlice<T, U>(f: T -> U, s: seq<T>, i: nat, j: nat)
    requires i <= j <= |s|
    ensures Map(f, s[i..j]) == Map(f, s)[i..j]
  {
  }

  lemma {:induction false} MapRemove<T, U>(f: T -> U, s: seq<T>, x: T)
    requires forall y :: y in s && f(y) == f(x) ==> y == x
    ensures Map(f, Remove(s, x)) == Remove(Map(f, s), f(x))
  {
    if s != [] {
      var h, t := s[0], s[1..];
      assert s == [h] + t;
      MapCons(f, h, t);
      if h != x {
        MapRemove(f, t, x);
        MapCons(f, h, Remove(t, x));
      }
      hide Map;
      ConsRemove(h, t, x);
      ConsRemove(f(h), Map(f, t), f(x));
    }
  }

  lemma ConsRemove<T>(h: T, t: seq<T>, x: T)
    ensures Remove([h] + t, x) == if h == x then t else [h] + Remove(t, x)
  {
    assert ([h] + t)[1..] == t;
  }

  // ----- queues

  function MapQueue<T(==), U(==)>(f: T -> U, q: Queue<T>): (r: Queue<U>)
    ensures r.All() == Map(f, q.All())
  {
    MapConcat(f, q.hot, q.cold);
    Queue(Map(f, q.hot), Map(f, q.cold))
  }

  lemma {:induction false} MapRebalanced<T, U>(f: T -> U, q: Queue<T>)
    ensures MapQueue(f, q.Rebalanced()) == MapQueue(f, q).Rebalanced()
    decreases if |q.cold| + 1 < |q.hot| then |q.hot| - |q.cold| else |q.cold| - |q.hot|, |q.hot| + 1 < |q.cold|
  {
    if |q.cold| + 1 < |q.hot| {
      var x := q.hot[|q.hot| - 1];
      var p := Queue(q.hot[..|q.hot| - 1], [x] + q.cold);
      assert Map(f, [x] + q.cold) == [f(x)] + Map(f, q.cold);
      assert Map(f, q.hot[..|q.hot| - 1]) == Map(f, q.hot)[..|q.hot| - 1];
      MapRebalanced(f, p);
    } else if |q.hot| + 1 < |q.cold| {
      var x := q.cold[0];
      var p := Queue(q.hot + [x], q.cold[1..]);
      assert Map(f, q.hot + [x]) == Map(f, q.hot) + [f(x)];
      assert Map(f, q.cold[1..]) == Map(f, q.cold)[1..];
      MapRebalanced(f, p);
    }
  }

  lemma MapCreate<T, U>(f: T -> U, q: Queue<T>, x: T)
    ensures MapQueue(f, q.Create(x)) == MapQueue(f, q).Create(f(x))
  {
    MapRebalanced(f, Queue(q.hot, [x] + q.cold));
    assert Map(f, [x] + q.cold) == [f(x)] + Map(f, q.cold);
  }

  lemma MapSplit<T, U>(f: T -> U, q: Queue<T>, x: T)
    requires forall y :: y in q.All() && f(y) == f(x) ==> y == x
    ensures Map(f, Remove(q.hot, x)) == Remove(Map(f, q.hot), f(x))
    ensures Map(f, Remove(q.cold, x)) == Remove(Map(f, q.cold), f(x))
    ensures f(x) in Map(f, q.hot) <==> x in q.hot
    ensures f(x) in Map(f, q.cold) <==> x in q.cold
  {
    MapRemove(f, q.hot, x);
    MapRemove(f, q.cold, x);
    if i :| 0 <= i < |q.hot| && q.hot[i] == x {
      assert Map(f, q.hot)[i] == f(x);
    }
    if i :| 0 <= i < |q.cold| && q.cold[i] == x {
      assert Map(f, q.cold)[i] == f(x);
    }
    assert forall y :: y in q.hot ==> y in q.All();
    assert forall y :: y in q.cold ==> y in q.All();
  }

  lemma MapHit<T, U>(f: T -> U, q: Queue<T>, x: T)
    requires x in q.All() && forall y :: y in q.All() && f(y) == f(x) ==> y == x
    ensures f(x) in MapQueue(f, q).All()
    ensures MapQueue(f, q.Hit(x)) == MapQueue(f, q).Hit(f(x))
  {
    hide Remove, Queue.Rebalanced, Map;
    MapSplit(f, q, x);
    if x in q.hot {
      MapRebalanced(f, Queue([x] + Remove(q.hot, x), q.cold));
      MapCons(f, x, Remove(q.hot, x));
    } else {
      MapRebalanced(f, Queue([x] + q.hot, Remove(q.cold, x)));
      MapCons(f, x, q.hot);
    }
  }

  lemma MapDelete<T, U>(f: T -> U, q: Queue<T>, x: T)
    requires forall y :: y in q.All() && f(y) == f(x) ==> y == x
    ensures MapQueue(f, q.Delete(x)) == MapQueue(f, q).Delete(f(x))
  {
    MapSplit(f, q, x);
    if x in q.hot {
      MapRebalanced(f, Queue(Remove(q.hot, x), q.cold));
    } else if x in q.cold {
      MapRebalanced(f, Queue(q.hot, Remove(q.cold, x)));
    }
  }

  lemma MapDrop<T, U>(f: T -> U, q: Queue<T>)
    requires q.All() != []
    ensures MapQueue(f, q).All() != []
    ensures MapQueue(f, q.DropColdest()) == MapQueue(f, q).DropColdest()
    ensures MapQueue(f, q).Coldest() == f(q.Coldest())
  {
    if q.cold != [] {
      MapSlice(f, q.cold, 0, |q.cold| - 1);
    } else {
      MapSlice(f, q.hot, 0, |q.hot| - 1);
    }
  }

  // ----- chains

  function MapChains<T, U>(f: T -> U, chains: seq<seq<T>>): (r: seq<seq<U>>)
    ensures |r| == |chains| && forall b :: 0 <= b < |chains| ==> r[b] == Map(f, chains[b])
  {
    seq(|chains|, b requires 0 <= b < |chains| => Map(f, chains[b]))
  }

  lemma MapUpdate<T, U>(f: T -> U, chains: seq<seq<T>>, b: nat, chain: seq<T>)
    requires b < |chains|
    ensures MapChains(f, chains[b := chain]) == MapChains(f, chains)[b := Map(f, chain)]
  {
  }

  lemma MapMove<T, U>(f: T -> U, chains: seq<seq<T>>, b: nat, i: nat, d: nat)
    requires b < |chains| && i < |chains[b]| && d < |chains| && d != b
    ensures MapChains(f, Move(chains, b, i, d)) == Move(MapChains(f, chains), b, i, d)
  {
    var c, x := chains[b], chains[b][i];
    MapGap(f, c, i);
    MapCons(f, x, chains[d]);
    MapUpdate(f, chains, b, c[..i] + c[i + 1..]);
    MapUpdate(f, chains[b := c[..i] + c[i + 1..]], d, [x] + chains[d]);
  }

  /** The two hash functions agree on the members of the chains. */
  ghost predicate Agree<T, U>(f: T -> U, h: T -> nat, g: U -> nat, chains: seq<seq<T>>) {
    forall b, i :: 0 <= b < |chains| && 0 <= i < |chains[b]| ==> h(chains[b][i]) == g(f(chains[b][i]))
  }

  lemma MoveAgrees<T, U>(f: T -> U, h: T -> nat, g: U -> nat, chains: seq<seq<T>>, b: nat, i: nat, d: nat)
    requires b < |chains| && i < |chains[b]| && d < |chains| && d != b && Agree(f, h, g, chains)
    ensures Agree(f, h, g, Move(chains, b, i, d))
  {
    var r := Move(chains, b, i, d);
    forall a, j | 0 <= a < |r| && 0 <= j < |r[a]| ensures h(r[a][j]) == g(f(r[a][j])) {
      if a == b {
        assert r[a][j] == if j < i then chains[b][j] else chains[b][j + 1];
      } else if a == d {
        assert r[a][j] == if j == 0 then chains[b][i] else chains[d][j - 1];
      }
    }
  }

  lemma {:induction false} MapRehashBucket<T, U>(f: T -> U, h: T -> nat, g: U -> nat, chains: seq<seq<T>>, b: nat,
      i: nat)
    requires b < |chains| && i <= |chains[b]| && Agree(f, h, g, chains)
    ensures MapChains(f, RehashBucket(h, chains, b, i)) == RehashBucket(g, MapChains(f, chains), b, i)
    ensures Agree(f, h, g, RehashBucket(h, chains, b, i))
    decreases |chains[b]| - i
  {
    if i < |chains[b]| {
      var d := h(chains[b][i]) % |chains|;
      if d == b {
        MapRehashBucket(f, h, g, chains, b, i + 1);
      } else {
        MapMove(f, chains, b, i, d);
        MoveAgrees(f, h, g, chains, b, i, d);
        MapRehashBucket(f, h, g, Move(chains, b, i, d), b, i);
      }
    }
  }

  lemma {:induction false} MapRehashFrom<T, U>(f: T -> U, h: T -> nat, g: U -> nat, chains: seq<seq<T>>, b: nat, n: nat)
    requires b <= n <= |chains| && Agree(f, h, g, chains)
    ensures MapChains(f, RehashFrom(h, chains, b, n)) == RehashFrom(g, MapChains(f, chains), b, n)
    decreases n - b
  {
    if b < n {
      MapRehashBucket(f, h, g, chains, b, 0);
      MapRehashFrom(f, h, g, RehashBucket(h, chains, b, 0), b + 1, n);
    }
  }

  /** Growing and rehashing the chains is growing and rehashing their images. */
  lemma MapRehashed<T, U>(f: T -> U, h: T -> nat, g: U -> nat, chains: seq<seq<T>>, m: nat)
    requires |chains| <= m && Agree(f, h, g, chains)
    ensures MapChains(f, Rehashed(h, chains, m)) == Rehashed(g, MapChains(f, chains), m)
  {
    var k := m - |chains|;
    assert MapChains(f, Grown(chains, k)) == Grown(MapChains(f, chains), k);
    MapRehashFrom(f, h, g, Grown(chains, k), 0, |chains|);
  }
}
