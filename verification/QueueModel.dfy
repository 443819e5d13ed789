/** The expire queue as a value: the hot list followed by the cold list, coldest element last. */
module QueueModel {
  import opened Sequences

  datatype Queue<T(==)> = Queue(hot: seq<T>, cold: seq<T>) {

    /** The queue as the eviction policy sees it: hottest first. */
    function All(): seq<T> { hot + cold }

    predicate Balanced() {
      |hot| <= |cold| + 1 && |cold| <= |hot| + 1
    }

    /** Shifts elements between the back of hot and the front of cold until the lengths differ by at most one. */
    function Rebalanced(): (q: Queue<T>)
      ensures q.All() == All()
      ensures q.Balanced()
      ensures Balanced() ==> q == this
      decreases if |cold| + 1 < |hot| then |hot| - |cold| else |cold| - |hot|, |hot| + 1 < |cold|
    {
      if |cold| + 1 < |hot| then
        var q := Queue(hot[..|hot| - 1], [hot[|hot| - 1]] + cold);
        assert q.All() == All();
        q.Rebalanced()
      else if |hot| + 1 < |cold| then
        var q := Queue(hot + [cold[0]], cold[1..]);
        assert q.All() == All();
        q.Rebalanced()
      else
        this
    }

    /** A new element enters at the front of the cold list. */
    function Create(x: T): (q: Queue<T>)
      ensures q.All() == All()[..|hot|] + [x] + All()[|hot|..]
      ensures q.Balanced()
    {
      var q := Queue(hot, [x] + cold);
      assert All()[..|hot|] == hot && All()[|hot|..] == cold;
      assert q.All() == hot + [x] + cold;
      q.Rebalanced()
    }

    /** A queued element that is hit moves to the very front. */
    function Hit(x: T): (q: Queue<T>)
      requires x in All()
      ensures q.All() == [x] + Remove(All(), x)
      ensures q.Balanced()
    {
      hide Remove;
      RemoveConcat(hot, cold, x);
      var q := if x in hot then Queue([x] + Remove(hot, x), cold) else Queue([x] + hot, Remove(cold, x));
      assert q.All() == [x] + Remove(All(), x);
      q.Rebalanced()
    }

    /** A deleted element leaves; an element that is not queued changes nothing, not even the balance. */
    function Delete(x: T): (q: Queue<T>)
      ensures q.All() == Remove(All(), x)
      ensures Balanced() || x in All() ==> q.Balanced()
    {
      RemoveConcat(hot, cold, x);
      if x in hot then
        Queue(Remove(hot, x), cold).Rebalanced()
      else if x in cold then
        Queue(hot, Remove(cold, x)).Rebalanced()
      else
        this
    }

    /** The element the next eviction takes. */
    function Coldest(): (x: T)
      requires All() != []
      ensures x == All()[|All()| - 1]
    {
      if cold != [] then cold[|cold| - 1] else hot[|hot| - 1]
    }

    /** The coldest element is unlinked; the caller rebalances once its eviction loop is done. */
    function DropColdest(): (q: Queue<T>)
      requires All() != []
      ensures q.All() == All()[..|All()| - 1]
    {
      if cold != [] then Queue(hot, cold[..|cold| - 1]) else Queue(hot[..|hot| - 1], cold)
    }
  }

  /** The length of the hot list after lists of `h` and `c` elements have been evened out: they are left alone if they
      differ by at most one, and otherwise the list that was longer keeps the odd element. */
  function Split(h: nat, c: nat): nat {
    if h > c + 1 then (h + c + 1) / 2 else if c > h + 1 then (h + c) / 2 else h
  }

  lemma {:induction false} RebalancedSplit<T>(q: Queue<T>)
    ensures |q.Rebalanced().hot| == Split(|q.hot|, |q.cold|)
    decreases if |q.cold| + 1 < |q.hot| then |q.hot| - |q.cold| else |q.cold| - |q.hot|, |q.hot| + 1 < |q.cold|
  {
    if |q.cold| + 1 < |q.hot| {
      RebalancedSplit(Queue(q.hot[..|q.hot| - 1], [q.hot[|q.hot| - 1]] + q.cold));
    } else if |q.hot| + 1 < |q.cold| {
      RebalancedSplit(Queue(q.hot + [q.cold[0]], q.cold[1..]));
    }
  }

  /** Where the boundary between hot and cold lies after each operation. */
  lemma Boundary<T>(q: Queue<T>, x: T)
    ensures |q.Create(x).hot| == Split(|q.hot|, |q.cold| + 1)
    ensures x in q.hot ==> |q.Hit(x).hot| == Split(|q.hot|, |q.cold|)
    ensures x in q.hot ==> |q.Delete(x).hot| == Split(|q.hot| - 1, |q.cold|)
    ensures x in q.cold && x !in q.hot ==> |q.Hit(x).hot| == Split(|q.hot| + 1, |q.cold| - 1)
    ensures x in q.cold && x !in q.hot ==> |q.Delete(x).hot| == Split(|q.hot|, |q.cold| - 1)
  {
    hide Queue.Rebalanced, Split;
    RebalancedSplit(Queue(q.hot, [x] + q.cold));
    RebalancedSplit(Queue([x] + Remove(q.hot, x), q.cold));
    RebalancedSplit(Queue([x] + q.hot, Remove(q.cold, x)));
    RebalancedSplit(Queue(Remove(q.hot, x), q.cold));
    RebalancedSplit(Queue(q.hot, Remove(q.cold, x)));
  }

  /** The first `n` elements, or all of them if there are fewer. */
  function Kept<T>(s: seq<T>, n: nat): seq<T> {
    if |s| <= n then s else s[..n]
  }

  lemma KeptAll<T>(s: seq<T>, n: nat)
    ensures |s| <= n ==> Kept(s, n) == s
  {
  }

  lemma KeptStep<T>(s: seq<T>, n: nat)
    requires n < |s|
    ensures Kept(s[..|s| - 1], n) == Kept(s, n)
  {
    TakeTake(s, |s| - 1, n);
  }

  /** `q'` is `q` after the arrival of `x` in a queue that is kept at `n` elements by cutting off its cold end. */
  ghost predicate Arrives<T>(q: Queue<T>, x: T, q': Queue<T>, n: nat) {
    q'.Balanced() && |q'.All()| == n && q'.All() <= q.Create(x).All()
  }

  lemma ArrivalKeepsHalf<T>(q: Queue<T>, x: T, q': Queue<T>, n: nat)
    requires q.Balanced() && |q.All()| == n && Arrives(q, x, q', n)
    ensures q'.All()[..n / 2] == q.All()[..n / 2]
  {
    assert |q.hot| >= n / 2;
    assert q.Create(x).All()[..|q.hot|] == q.All()[..|q.hot|];
    assert q'.All()[..n / 2] == q.Create(x).All()[..n / 2];
    assert q.Create(x).All()[..n / 2] == q.Create(x).All()[..|q.hot|][..n / 2];
  }

  /** Once the queue is full, any number of arrivals without a hit leaves its hotter half in place. */
  lemma {:induction false} ScanResistance<T>(qs: seq<Queue<T>>, xs: seq<T>, n: nat)
    requires |qs| == |xs| + 1 && qs[0].Balanced() && |qs[0].All()| == n
    requires forall i :: 0 <= i < |xs| ==> Arrives(qs[i], xs[i], qs[i + 1], n)
    ensures qs[|xs|].Balanced() && |qs[|xs|].All()| == n
    ensures qs[|xs|].All()[..n / 2] == qs[0].All()[..n / 2]
  {
    if xs != [] {
      ArrivalKeepsHalf(qs[0], xs[0], qs[1], n);
      assert forall i :: 0 <= i < |xs[1..]| ==> Arrives(qs[1..][i], xs[1..][i], qs[1..][i + 1], n) by {
        forall i | 0 <= i < |xs[1..]| ensures Arrives(qs[1..][i], xs[1..][i], qs[1..][i + 1], n) {
          assert Arrives(qs[i + 1], xs[i + 1], qs[i + 2], n);
        }
      }
      ScanResistance(qs[1..], xs[1..], n);
    }
  }
}
