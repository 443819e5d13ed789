/** The bucket chains as values, and the in-place rehash as a function on them. */
module HashChains {
  import opened Sequences

  /** All elements of all chains, with multiplicity. */
  ghost function Bag<T>(chains: seq<seq<T>>): multiset<T> {
    if chains == [] then multiset{} else multiset(chains[0]) + Bag(chains[1..])
  }

  lemma {:induction false} BagUpdate<T>(chains: seq<seq<T>>, b: nat, chain: seq<T>, x: T)
    requires b < |chains|
    ensures Bag(chains[b := chain])[x] + multiset(chains[b])[x] == Bag(chains)[x] + multiset(chain)[x]
  {
    if b == 0 {
      assert chains[b := chain][1..] == chains[1..];
    } else {
      BagUpdate(chains[1..], b - 1, chain, x);
      assert chains[b := chain][1..] == chains[1..][b - 1 := chain];
    }
  }

  lemma {:induction false} BagMember<T>(chains: seq<seq<T>>, x: T)
    ensures x in Bag(chains) <==> exists b :: 0 <= b < |chains| && x in chains[b]
  {
    if chains != [] {
      BagMember(chains[1..], x);
      if x in Bag(chains) && x !in chains[0] {
        var b :| 0 <= b < |chains[1..]| && x in chains[1..][b];
        assert x in chains[b + 1];
      }
      if b :| 0 <= b < |chains| && x in chains[b] {
        if b > 0 {
          assert x in chains[1..][b - 1];
        }
      }
    }
  }

  lemma {:induction false} CountNoDup<T>(s: seq<T>)
    ensures NoDup(s) <==> forall x :: multiset(s)[x] <= 1
  {
    if s != [] {
      var t := s[1..];
      assert s == [s[0]] + t;
      CountNoDup(t);
      if NoDup(s) {
        assert s[0] !in t;
      } else if NoDup(t) {
        assert s[0] in t;
        assert multiset(s)[s[0]] >= 2;
      } else {
        var x :| multiset(t)[x] > 1;
        assert multiset(s)[x] > 1;
      }
    }
  }

  /** Chains without duplicates and without common elements hold every element at most once. */
  lemma {:induction false} BagOnce<T>(chains: seq<seq<T>>, x: T)
    requires forall b :: 0 <= b < |chains| ==> NoDup(chains[b])
    requires forall b, d :: 0 <= b < d < |chains| && x in chains[b] ==> x !in chains[d]
    ensures Bag(chains)[x] <= 1
  {
    if chains != [] {
      BagOnce(chains[1..], x);
      BagMember(chains[1..], x);
      CountNoDup(chains[0]);
    }
  }

  lemma {:induction false} OnceNoDup<T>(chains: seq<seq<T>>, b: nat)
    requires b < |chains| && forall x :: Bag(chains)[x] <= 1
    ensures NoDup(chains[b])
  {
    forall x ensures multiset(chains[b])[x] <= 1 {
      BagUpdate(chains, b, [], x);
    }
    CountNoDup(chains[b]);
  }

  /** `k` empty buckets appended to the table. */
  function Grown<T>(chains: seq<seq<T>>, k: nat): seq<seq<T>> {
    chains + seq(k, _ => [])
  }

  lemma {:induction false} BagEmpties<T>(chains: seq<seq<T>>, k: nat)
    ensures forall x :: Bag(Grown(chains, k))[x] == Bag(chains)[x]
  {
    if chains != [] {
      assert Grown(chains, k)[1..] == Grown(chains[1..], k);
      BagEmpties(chains[1..], k);
    } else if k > 0 {
      assert Grown(chains, k)[1..] == Grown(chains, k - 1);
      BagEmpties(chains, k - 1);
    } else {
      assert Grown(chains, k) == chains;
    }
  }

  /** One step of the rehash: the node at position `i` of chain `b` becomes the head of chain `d`. */
  function Move<T>(chains: seq<seq<T>>, b: nat, i: nat, d: nat): seq<seq<T>>
    requires b < |chains| && i < |chains[b]| && d < |chains| && d != b
  {
    chains[b := chains[b][..i] + chains[b][i + 1..]][d := [chains[b][i]] + chains[d]]
  }

  lemma CountInsert<T>(l: seq<T>, x: T, r: seq<T>, y: T)
    ensures multiset(l + [x] + r)[y] == multiset(l + r)[y] + if y == x then 1 else 0
  {
  }

  lemma MoveBag<T>(chains: seq<seq<T>>, b: nat, i: nat, d: nat)
    requires b < |chains| && i < |chains[b]| && d < |chains| && d != b
    ensures forall x :: Bag(Move(chains, b, i, d))[x] == Bag(chains)[x]
  {
    var l, x, r := chains[b][..i], chains[b][i], chains[b][i + 1..];
    assert chains[b] == l + [x] + r;
    assert [x] + chains[d] == [] + [x] + chains[d];
    assert [] + chains[d] == chains[d];
    forall y ensures Bag(Move(chains, b, i, d))[y] == Bag(chains)[y] {
      CountInsert(l, x, r, y);
      CountInsert([], x, chains[d], y);
      BagUpdate(chains, b, l + r, y);
      BagUpdate(chains[b := l + r], d, [x] + chains[d], y);
    }
  }

  ghost predicate Placed<T>(hash: T -> nat, chain: seq<T>, n: nat, d: nat)
    requires n > 0
  {
    forall x :: x in chain ==> hash(x) % n == d
  }

  /** Walks chain `b` from position `i` and moves every node that belongs elsewhere to the head of its chain. */
  function RehashBucket<T>(hash: T -> nat, chains: seq<seq<T>>, b: nat, i: nat): (r: seq<seq<T>>)
    requires b < |chains| && i <= |chains[b]|
    ensures |r| == |chains|
    decreases |chains[b]| - i
  {
    if i == |chains[b]| then chains else
    var d := hash(chains[b][i]) % |chains|;
    if d == b then RehashBucket(hash, chains, b, i + 1)
    else RehashBucket(hash, Move(chains, b, i, d), b, i)
  }

  /** Rehashes the chains `b`, ..., `n - 1`; only these held elements before the table grew. */
  function RehashFrom<T>(hash: T -> nat, chains: seq<seq<T>>, b: nat, n: nat): (r: seq<seq<T>>)
    requires b <= n <= |chains|
    ensures |r| == |chains|
    decreases n - b
  {
    if b == n then chains else RehashFrom(hash, RehashBucket(hash, chains, b, 0), b + 1, n)
  }

  /** The table grown to `m` chains and rehashed by one pass over the original chains. */
  function Rehashed<T>(hash: T -> nat, chains: seq<seq<T>>, m: nat): (r: seq<seq<T>>)
    requires |chains| <= m
    ensures |r| == m
  {
    RehashFrom(hash, Grown(chains, m - |chains|), 0, |chains|)
  }

  lemma {:induction false} RehashBucketCorrect<T>(hash: T -> nat, chains: seq<seq<T>>, b: nat, i: nat)
    requires b < |chains| && i <= |chains[b]|
    requires Placed(hash, chains[b][..i], |chains|, b)
    ensures var r := RehashBucket(hash, chains, b, i);
      && (forall x :: Bag(r)[x] == Bag(chains)[x])
      && Placed(hash, r[b], |r|, b)
      && (forall d :: 0 <= d < |r| && d != b && Placed(hash, chains[d], |r|, d) ==> Placed(hash, r[d], |r|, d))
    decreases |chains[b]| - i
  {
    if i == |chains[b]| {
      assert chains[b][..i] == chains[b];
    } else {
      var d := hash(chains[b][i]) % |chains|;
      if d == b {
        assert chains[b][..i + 1] == chains[b][..i] + [chains[b][i]];
        RehashBucketCorrect(hash, chains, b, i + 1);
      } else {
        var next := Move(chains, b, i, d);
        assert next[b][..i] == chains[b][..i];
        MoveBag(chains, b, i, d);
        RehashBucketCorrect(hash, next, b, i);
      }
    }
  }

  /** All chains outside `b`, ..., `n - 1` hold only elements that belong there. */
  ghost predicate PlacedOutside<T>(hash: T -> nat, chains: seq<seq<T>>, b: nat, n: nat) {
    forall d :: 0 <= d < |chains| && !(b <= d < n) ==> Placed(hash, chains[d], |chains|, d)
  }

  lemma RehashBucketPlaces<T>(hash: T -> nat, chains: seq<seq<T>>, b: nat, n: nat)
    requires b < n <= |chains| && PlacedOutside(hash, chains, b, n)
    ensures var r := RehashBucket(hash, chains, b, 0);
      (forall x :: Bag(r)[x] == Bag(chains)[x]) && PlacedOutside(hash, r, b + 1, n)
  {
    assert Placed(hash, chains[b][..0], |chains|, b);
    hide Placed, RehashBucket, Bag;
    RehashBucketCorrect(hash, chains, b, 0);
  }

  lemma {:induction false} RehashFromCorrect<T>(hash: T -> nat, chains: seq<seq<T>>, b: nat, n: nat)
    requires b <= n <= |chains| && PlacedOutside(hash, chains, b, n)
    ensures var r := RehashFrom(hash, chains, b, n);
      (forall x :: Bag(r)[x] == Bag(chains)[x]) && PlacedOutside(hash, r, n, n)
    decreases n - b
  {
    hide Placed, RehashBucket, Bag, PlacedOutside;
    if b < n {
      RehashBucketPlaces(hash, chains, b, n);
      RehashFromCorrect(hash, RehashBucket(hash, chains, b, 0), b + 1, n);
    }
  }

  /** One pass over the original chains alone leaves every element in its new chain, none lost and none doubled. */
  lemma RehashCorrect<T>(hash: T -> nat, chains: seq<seq<T>>, m: nat)
    requires 0 < m && |chains| <= m
    ensures var r := Rehashed(hash, chains, m);
      (forall x :: Bag(r)[x] == Bag(chains)[x]) && forall d :: 0 <= d < m ==> Placed(hash, r[d], m, d)
  {
    var g := Grown(chains, m - |chains|);
    BagEmpties(chains, m - |chains|);
    assert PlacedOutside(hash, g, 0, |chains|);
    RehashFromCorrect(hash, g, 0, |chains|);
    assert PlacedOutside(hash, Rehashed(hash, chains, m), |chains|, |chains|);
  }
}
