/** The expire queue in memory: two circular doubly linked lists of intrusive links with tagged pointers, refining the
    queue as a value. */
module ExpireQueue {
  import opened Sequences
  import opened QueueModel

  datatype QueueId = Cold | Hot

  /** A link pointer carries the identity of the queue in its lowest bit; the null word means unlinked. */
  datatype Tagged = Unlinked | To(node: ExpireLink, queue: QueueId)

  class ExpireLink {
    /** The number of the element that this link is part of. */
    const owner: nat
    var pred: Tagged
    var succ: Tagged

    constructor Loose(owner: nat)
      ensures IsLoose() && this.owner == owner
    {
      this.owner := owner;
      pred, succ := Unlinked, Unlinked;
    }

    constructor Head(queue: QueueId)
      ensures Ring([this, this], queue)
    {
      owner := 0;
      pred, succ := Unlinked, Unlinked;
      new;
      pred, succ := To(this, queue), To(this, queue);
    }

    ghost predicate IsLoose()
      reads this
    {
      pred == Unlinked && succ == Unlinked
    }

    /** Links this node between `before` and its successor. `r` is the ring that `before` belongs to, at position `i`.
        */
    method LinkAfter(before: ExpireLink, ghost r: seq<ExpireLink>, ghost i: nat, ghost queue: QueueId)
      requires Ring(r, queue) && i < |r| - 1 && before == r[i] && this !in r && IsLoose()
      modifies this, before, r[i + 1]
      ensures Ring(Inserted(r, i, this), queue)
    {
      var after := before.succ.node;
      var self := To(this, before.succ.queue);
      succ := before.succ;
      before.succ := self;
      pred := after.pred;
      after.pred := self;
      forall j | 0 <= j < |r| - 1 && j != i ensures Adjacent(r[j], r[j + 1], queue) {
        assert old(Adjacent(r[j], r[j + 1], queue));
        RingNeighbours(r, i, j);
      }
      InsertedRing(r, i, this, queue);
    }

    /** Links this node between `after` and its predecessor. */
    method LinkBefore(after: ExpireLink, ghost r: seq<ExpireLink>, ghost i: nat, ghost queue: QueueId)
      requires Ring(r, queue) && i < |r| - 1 && after == r[i + 1] && this !in r && IsLoose()
      modifies this, after, r[i]
      ensures Ring(Inserted(r, i, this), queue)
    {
      var before := after.pred.node;
      assert Adjacent(r[i], r[i + 1], queue);
      assert Adjacent(if i + 1 < |r| - 1 then r[i + 1] else r[0], if i + 1 < |r| - 1 then r[i + 2] else r[1], queue);
      var self := To(this, after.succ.queue);
      succ := before.succ;
      before.succ := self;
      pred := after.pred;
      after.pred := self;
      forall j | 0 <= j < |r| - 1 && j != i ensures Adjacent(r[j], r[j + 1], queue) {
        assert old(Adjacent(r[j], r[j + 1], queue));
        RingNeighbours(r, i, j);
      }
      InsertedRing(r, i, this, queue);
    }

    /** Takes this node out of the ring `r`, in which it stands at position `i`. */
    method Unlink(ghost r: seq<ExpireLink>, ghost i: nat, ghost queue: QueueId)
      requires Ring(r, queue) && 0 < i < |r| - 1 && this == r[i]
      modifies this, r[i - 1], r[i + 1]
      ensures Ring(Without(r, i), queue) && IsLoose()
    {
      var p, s := pred.node, succ.node;
      p.succ := succ;
      succ := Unlinked;
      s.pred := pred;
      pred := Unlinked;
      forall j | 0 <= j < |r| - 1 && j != i - 1 && j != i ensures Adjacent(r[j], r[j + 1], queue) {
        assert old(Adjacent(r[j], r[j + 1], queue));
        RingNeighbours(r, i, j);
        RingNeighbours(r, i - 1, j);
      }
      WithoutRing(r, i, queue);
    }
  }

  /** The head of the list, its nodes in order, and the head again: neighbours point at each other with the queue's
      tag. */
  ghost predicate Ring(r: seq<ExpireLink>, queue: QueueId)
    reads r
  {
    && |r| >= 2 && r[0] == r[|r| - 1]
    && NoDup(r[1..])
    && forall i :: 0 <= i < |r| - 1 ==> Adjacent(r[i], r[i + 1], queue)
  }

  ghost predicate Adjacent(a: ExpireLink, b: ExpireLink, queue: QueueId)
    reads a, b
  {
    a.succ == To(b, queue) && b.pred == To(a, queue)
  }

  ghost function Inserted(r: seq<ExpireLink>, i: nat, x: ExpireLink): seq<ExpireLink>
    requires i < |r|
  {
    r[..i + 1] + [x] + r[i + 1..]
  }

  ghost function Without(r: seq<ExpireLink>, i: nat): seq<ExpireLink>
    requires i < |r|
  {
    r[..i] + r[i + 1..]
  }

  /** Different links of a ring start at different nodes and end at different nodes. */
  lemma RingNeighbours(r: seq<ExpireLink>, i: nat, j: nat)
    requires |r| >= 2 && r[0] == r[|r| - 1] && NoDup(r[1..])
    requires i < |r| - 1 && j < |r| - 1 && i != j
    ensures r[i] != r[j] && r[i + 1] != r[j + 1]
  {
    RingDistinct(r, if i < j then i else j, if i < j then j else i);
    RingDistinct(r, if i < j then i + 1 else j + 1, if i < j then j + 1 else i + 1);
  }

  /** In a ring only the head occurs twice, at both ends. */
  lemma RingDistinct(r: seq<ExpireLink>, i: nat, j: nat)
    requires |r| >= 2 && r[0] == r[|r| - 1] && NoDup(r[1..])
    requires i < j < |r| && (i, j) != (0, |r| - 1)
    ensures r[i] != r[j]
  {
    if i == 0 {
      assert r[1..][j - 1] != r[1..][|r| - 2];
    } else {
      assert r[1..][i - 1] != r[1..][j - 1];
    }
  }

  /** Nodes `r[..]` formed a ring until the link between `r[i]` and `r[i + 1]` was cut; all other links still stand. */
  ghost predicate CutRing(r: seq<ExpireLink>, i: nat, queue: QueueId)
    reads r
  {
    && i < |r| - 1 && r[0] == r[|r| - 1]
    && NoDup(r[1..])
    && (forall j :: 0 <= j < |r| - 1 && j != i ==> Adjacent(r[j], r[j + 1], queue))
  }

  lemma InsertedRing(r: seq<ExpireLink>, i: nat, x: ExpireLink, queue: QueueId)
    requires CutRing(r, i, queue) && x !in r
    requires Adjacent(r[i], x, queue) && Adjacent(x, r[i + 1], queue)
    ensures Ring(Inserted(r, i, x), queue)
  {
    var r' := Inserted(r, i, x);
    forall j | 0 <= j < |r'| - 1 ensures Adjacent(r'[j], r'[j + 1], queue) {
      if j < i {
        assert Adjacent(r[j], r[j + 1], queue);
      } else if j > i + 1 {
        assert Adjacent(r[j - 1], r[j], queue);
      }
    }
    InsertedNoDup(r, i, x);
  }

  lemma InsertedNoDup(r: seq<ExpireLink>, i: nat, x: ExpireLink)
    requires i < |r| && NoDup(r[1..]) && x !in r
    ensures NoDup(Inserted(r, i, x)[1..])
  {
    var l, t := r[1..][..i], r[1..][i..];
    assert Inserted(r, i, x)[1..] == l + [x] + t;
    assert r[1..] == l + t;
    NoDupConcat(l, t);
    assert NoDup([x]);
    NoDupConcat(l, [x]);
    NoDupConcat(l + [x], t);
  }

  lemma WithoutRing(r: seq<ExpireLink>, i: nat, queue: QueueId)
    requires 0 < i < |r| - 1 && r[0] == r[|r| - 1] && NoDup(r[1..])
    requires forall j :: 0 <= j < |r| - 1 && j != i - 1 && j != i ==> Adjacent(r[j], r[j + 1], queue)
    requires Adjacent(r[i - 1], r[i + 1], queue)
    ensures Ring(Without(r, i), queue)
  {
    var r' := Without(r, i);
    forall j | 0 <= j < |r'| - 1 ensures Adjacent(r'[j], r'[j + 1], queue) {
      if j < i - 1 {
        assert Adjacent(r[j], r[j + 1], queue);
      } else if j > i - 1 {
        assert Adjacent(r[j + 1], r[j + 2], queue);
      }
    }
    WithoutNoDup(r, i);
  }

  lemma WithoutNoDup(r: seq<ExpireLink>, i: nat)
    requires 0 < i < |r| && NoDup(r[1..])
    ensures NoDup(Without(r, i)[1..])
  {
    var l, t := r[1..][..i - 1], r[1..][i..];
    assert Without(r, i)[1..] == l + t;
    assert r[1..] == l + [r[i]] + t;
    NoDupConcat(l + [r[i]], t);
    NoDupConcat(l, [r[i]]);
    NoDupConcat(l, t);
  }

  ghost function RingOf(head: ExpireLink, nodes: seq<ExpireLink>): seq<ExpireLink> {
    [head] + nodes + [head]
  }

  lemma RingOfInserted(head: ExpireLink, nodes: seq<ExpireLink>, i: nat, x: ExpireLink)
    requires i <= |nodes|
    ensures Inserted(RingOf(head, nodes), i, x) == RingOf(head, nodes[..i] + [x] + nodes[i..])
  {
  }

  lemma RingOfWithout(head: ExpireLink, nodes: seq<ExpireLink>, i: nat)
    requires i < |nodes| && NoDup(nodes)
    ensures Without(RingOf(head, nodes), i + 1) == RingOf(head, Remove(nodes, nodes[i]))
  {
    RemoveAt(nodes, i);
    RingOfGap(head, nodes, i);
  }

  lemma Locate(head: ExpireLink, nodes: seq<ExpireLink>, x: ExpireLink) returns (i: nat)
    requires NoDup(nodes) && x in nodes
    ensures i < |nodes| && RingOf(head, nodes)[i + 1] == x
    ensures Without(RingOf(head, nodes), i + 1) == RingOf(head, Remove(nodes, x))
  {
    i :| 0 <= i < |nodes| && nodes[i] == x;
    RingOfWithout(head, nodes, i);
  }

  lemma RingOfGap(head: ExpireLink, nodes: seq<ExpireLink>, i: nat)
    requires i < |nodes|
    ensures Without(RingOf(head, nodes), i + 1) == RingOf(head, nodes[..i] + nodes[i + 1..])
  {
    var a, b := Without(RingOf(head, nodes), i + 1), RingOf(head, nodes[..i] + nodes[i + 1..]);
    assert |a| == |b|;
    forall k | 0 <= k < |a| ensures a[k] == b[k] {}
  }

  class BaseExpireQueue {
    var coldLen: nat
    var hotLen: nat
    const coldQ: ExpireLink
    const hotQ: ExpireLink
    /** The linked elements: the value that this memory represents. */
    ghost var q: Queue<ExpireLink>
    /** All memory of the queue: both heads and the linked nodes. */
    ghost var nodes: set<ExpireLink>

    constructor ()
      ensures Valid() && q == Queue([], []) && fresh(coldQ) && fresh(hotQ)
    {
      var c := new ExpireLink.Head(Cold);
      var h := new ExpireLink.Head(Hot);
      coldQ, hotQ, coldLen, hotLen := c, h, 0, 0;
      q, nodes := Queue([], []), {c, h};
      new;
      assert RingOf(coldQ, []) == [coldQ, coldQ] && RingOf(hotQ, []) == [hotQ, hotQ];
    }

    ghost function HotRing(): seq<ExpireLink>
      reads this
    {
      RingOf(hotQ, q.hot)
    }

    ghost function ColdRing(): seq<ExpireLink>
      reads this
    {
      RingOf(coldQ, q.cold)
    }

    ghost predicate Valid()
      reads this, nodes
    {
      && Members()
      && nodes == {hotQ, coldQ} + (set x | x in q.All())
      && Ring(HotRing(), Hot) && Ring(ColdRing(), Cold)
      && hotLen == |q.hot| && coldLen == |q.cold|
    }

    /** The two lists are disjoint and duplicate-free, and the list heads are no members. */
    ghost predicate Members()
      reads this
    {
      NoDup(q.All()) && hotQ != coldQ && hotQ !in q.All() && coldQ !in q.All()
    }

    lemma Disjoint()
      requires Members()
      ensures NoDup(q.hot) && NoDup(q.cold)
      ensures forall x :: x in HotRing() ==> x !in ColdRing()
      ensures forall x :: x in q.All() <==> x in q.hot || x in q.cold
    {
      NoDupConcat(q.hot, q.cold);
    }

    /** A node that is about to be linked. */
    ghost predicate Loose(s: ExpireLink)
      reads this, s
    {
      s.IsLoose() && s !in q.All() && s != hotQ && s != coldQ
    }

    lemma InNodes()
      ensures Valid() ==> forall s :: s in nodes <==> s in q.All() || s == hotQ || s == coldQ
    {
    }

    lemma EnterMembers(q': Queue<ExpireLink>, s: ExpireLink)
      requires Members() && s !in q.All() && s != hotQ && s != coldQ
      requires q' == Queue(q.hot, [s] + q.cold) || q' == Queue([s] + q.hot, q.cold) || q' == Queue(q.hot + [s], q.cold)
      ensures NoDup(q'.All()) && hotQ !in q'.All() && coldQ !in q'.All()
    {
      NoDupConcat(q.hot, q.cold);
      assert NoDup([s]);
      NoDupConcat([s], q.cold);
      NoDupConcat([s], q.hot);
      NoDupConcat(q.hot, [s]);
      NoDupConcat(q'.hot, q'.cold);
    }

    lemma LeaveMembers(s: ExpireLink)
      requires Members()
      ensures var l := Remove(q.All(), s); NoDup(l) && hotQ !in l && coldQ !in l && s !in l
      ensures s in q.hot ==> Remove(q.All(), s) == Remove(q.hot, s) + q.cold
      ensures s in q.cold ==> Remove(q.All(), s) == q.hot + Remove(q.cold, s)
    {
      NoDupConcat(q.hot, q.cold);
      RemoveNoDup(q.All(), s);
      RemoveConcat(q.hot, q.cold, s);
    }

    /** Links a loose node at the front of the cold list. */
    method EnterColdFront(s: ExpireLink)
      requires Valid() && Loose(s)
      modifies this, s, nodes
      ensures Valid() && q == Queue(old(q.hot), [s] + old(q.cold)) && nodes == old(nodes) + {s}
    {
      hide NoDup, Ring;
      Disjoint();
      EnterMembers(Queue(q.hot, [s] + q.cold), s);
      ghost var r, hot := ColdRing(), HotRing();
      assert r[0] in r && r[1] in r && s !in hot && s !in r;
      s.LinkAfter(coldQ, r, 0, Cold);
      assert Ring(hot, Hot);
      RingOfInserted(coldQ, q.cold, 0, s);
      assert q.cold[..0] + [s] + q.cold[0..] == [s] + q.cold;
      coldLen := coldLen + 1;
      q := Queue(q.hot, [s] + q.cold);
      nodes := nodes + {s};
    }

    /** Links a loose node at the front of the hot list. */
    method EnterHotFront(s: ExpireLink)
      requires Valid() && Loose(s)
      modifies this, s, nodes
      ensures Valid() && q == Queue([s] + old(q.hot), old(q.cold)) && nodes == old(nodes) + {s}
    {
      hide NoDup, Ring;
      Disjoint();
      EnterMembers(Queue([s] + q.hot, q.cold), s);
      ghost var r, cold := HotRing(), ColdRing();
      assert r[0] in r && r[1] in r && s !in cold && s !in r;
      s.LinkAfter(hotQ, r, 0, Hot);
      assert Ring(cold, Cold);
      RingOfInserted(hotQ, q.hot, 0, s);
      assert q.hot[..0] + [s] + q.hot[0..] == [s] + q.hot;
      hotLen := hotLen + 1;
      q := Queue([s] + q.hot, q.cold);
      nodes := nodes + {s};
    }

    /** Links a loose node at the back of the hot list. */
    method EnterHotBack(s: ExpireLink)
      requires Valid() && Loose(s)
      modifies this, s, nodes
      ensures Valid() && q == Queue(old(q.hot) + [s], old(q.cold)) && nodes == old(nodes) + {s}
    {
      hide NoDup, Ring;
      Disjoint();
      EnterMembers(Queue(q.hot + [s], q.cold), s);
      ghost var r, cold, n := HotRing(), ColdRing(), |q.hot|;
      assert r[n] in r && r[n + 1] in r && s !in cold && s !in r;
      s.LinkBefore(hotQ, r, n, Hot);
      assert Ring(cold, Cold);
      RingOfInserted(hotQ, q.hot, n, s);
      assert q.hot[..n] + [s] + q.hot[n..] == q.hot + [s];
      hotLen := hotLen + 1;
      q := Queue(q.hot + [s], q.cold);
      nodes := nodes + {s};
    }

    /** Unlinks a node of the hot list. */
    method LeaveHot(s: ExpireLink)
      requires Valid() && s in q.hot
      modifies this, nodes
      ensures Valid() && q == Queue(Remove(old(q.hot), s), old(q.cold)) && Loose(s) && nodes == old(nodes) - {s}
    {
      hide Ring, NoDup, Remove, Without, Adjacent;
      Disjoint();
      LeaveMembers(s);
      ghost var r, cold := HotRing(), ColdRing();
      ghost var i := Locate(hotQ, q.hot, s);
      assert r[i] in r && r[i + 1] in r && r[i + 2] in r;
      s.Unlink(r, i + 1, Hot);
      assert Ring(cold, Cold);
      hotLen := hotLen - 1;
      q := Queue(Remove(q.hot, s), q.cold);
      nodes := nodes - {s};
    }

    /** Unlinks a node of the cold list. */
    method LeaveCold(s: ExpireLink)
      requires Valid() && s in q.cold
      modifies this, nodes
      ensures Valid() && q == Queue(old(q.hot), Remove(old(q.cold), s)) && Loose(s) && nodes == old(nodes) - {s}
    {
      hide Ring, NoDup, Remove, Without, Adjacent;
      Disjoint();
      LeaveMembers(s);
      ghost var r, hot := ColdRing(), HotRing();
      ghost var i := Locate(coldQ, q.cold, s);
      assert r[i] in r && r[i + 1] in r && r[i + 2] in r;
      s.Unlink(r, i + 1, Cold);
      assert Ring(hot, Hot);
      coldLen := coldLen - 1;
      q := Queue(q.hot, Remove(q.cold, s));
      nodes := nodes - {s};
    }

    // ----- the operations of the source

    /** What the heads of the lists point at. */
    lemma Ends()
      requires Valid()
      ensures q.hot != [] ==> hotQ.pred == To(q.hot[|q.hot| - 1], Hot)
      ensures q.cold != [] ==> coldQ.pred == To(q.cold[|q.cold| - 1], Cold) && coldQ.succ == To(q.cold[0], Cold)
    {
      hide NoDup;
      if q.hot != [] {
        assert Adjacent(HotRing()[|q.hot|], HotRing()[|q.hot| + 1], Hot);
      }
      if q.cold != [] {
        assert Adjacent(ColdRing()[|q.cold|], ColdRing()[|q.cold| + 1], Cold);
        assert Adjacent(ColdRing()[0], ColdRing()[1], Cold);
      }
    }

    /** The tag of a link pointer tells which list its node is on. */
    lemma Tags(s: ExpireLink)
      requires Valid()
      ensures s in q.hot ==> s.pred.To? && s.pred.queue == Hot
      ensures s in q.cold ==> s.pred.To? && s.pred.queue == Cold
    {
      hide NoDup;
      if i :| 0 <= i < |q.hot| && q.hot[i] == s {
        assert Adjacent(HotRing()[i], HotRing()[i + 1], Hot);
      }
      if i :| 0 <= i < |q.cold| && q.cold[i] == s {
        assert Adjacent(ColdRing()[i], ColdRing()[i + 1], Cold);
      }
    }

    /** The link pointers of a linked node lead to linked nodes or to the heads of the lists. */
    lemma Neighbours(s: ExpireLink)
      requires Valid() && s in q.All()
      ensures s.pred.To? && s.pred.node in nodes && s.succ.To? && s.succ.node in nodes
    {
      hide NoDup;
      if i :| 0 <= i < |q.hot| && q.hot[i] == s {
        assert Adjacent(HotRing()[i], HotRing()[i + 1], Hot) && Adjacent(HotRing()[i + 1], HotRing()[i + 2], Hot);
      } else {
        var i :| 0 <= i < |q.cold| && q.cold[i] == s;
        assert Adjacent(ColdRing()[i], ColdRing()[i + 1], Cold) && Adjacent(ColdRing()[i + 1], ColdRing()[i + 2], Cold);
      }
    }

    static lemma RemoveLast(l: seq<ExpireLink>)
      requires NoDup(l) && l != []
      ensures Remove(l, l[|l| - 1]) == l[..|l| - 1]
    {
      RemoveAt(l, |l| - 1);
    }

    /** Moves the back of the hot list to the front of the cold list. */
    method CoolOne()
      requires Valid() && q.hot != []
      modifies this, nodes
      ensures Valid() && nodes == old(nodes)
      ensures var h := old(q.hot); q == Queue(h[..|h| - 1], [h[|h| - 1]] + old(q.cold))
    {
      hide Ring, NoDup;
      Disjoint();
      Ends();
      RemoveLast(q.hot);
      var s := hotQ.pred.node;
      LeaveHot(s);
      EnterColdFront(s);
    }

    /** Moves the front of the cold list to the back of the hot list. */
    method HeatOne()
      requires Valid() && q.cold != []
      modifies this, nodes
      ensures Valid() && nodes == old(nodes)
      ensures q == Queue(old(q.hot) + [old(q.cold)[0]], old(q.cold)[1..])
    {
      hide Ring, NoDup;
      Disjoint();
      Ends();
      assert Remove(q.cold, q.cold[0]) == q.cold[1..];
      var s := coldQ.succ.node;
      LeaveCold(s);
      EnterHotBack(s);
    }

    /** Evens out the two lists without changing the order of the elements. */
    method Rebalance()
      requires Valid()
      modifies this, nodes
      ensures Valid() && nodes == old(nodes)
      ensures q == old(q.Rebalanced())
    {
      hide Ring, NoDup, Members;
      while coldLen + 1 < hotLen
        invariant Valid() && nodes == old(nodes)
        invariant q.Rebalanced() == old(q.Rebalanced())
        decreases hotLen
      {
        CoolOne();
      }
      while hotLen + 1 < coldLen
        invariant Valid() && nodes == old(nodes)
        invariant q.Rebalanced() == old(q.Rebalanced())
        invariant coldLen + 1 >= hotLen
        decreases coldLen
      {
        HeatOne();
      }
    }

    method OnCreate(s: ExpireLink)
      requires Valid() && Loose(s)
      modifies this, s, nodes
      ensures Valid() && nodes == old(nodes) + {s}
      ensures q == old(q.Create(s))
    {
      hide Ring, NoDup, Members;
      EnterColdFront(s);
      Rebalance();
    }

    /** Deleting an element that is not linked does nothing at all. */
    method OnDelete(s: ExpireLink)
      requires Valid() && (s in q.All() || Loose(s))
      modifies this, nodes
      ensures Valid() && Loose(s) && nodes == old(nodes) - {s}
      ensures q == old(q.Delete(s))
      ensures old(Loose(s)) ==> unchanged(this) && unchanged(old(nodes))
    {
      hide Ring, NoDup;
      Disjoint();
      Tags(s);
      match s.pred {
        case Unlinked => return;
        case To(_, Hot) => LeaveHot(s);
        case To(_, Cold) => LeaveCold(s);
      }
      Rebalance();
    }

    /** `strengthened` is what strengthening the element reports; it is asked for unlinked elements only. */
    method OnHit(s: ExpireLink, strengthened: bool)
      requires Valid() && (s in q.All() || Loose(s))
      modifies this, s, nodes
      ensures Valid() && nodes <= old(nodes) + {s} && (s in q.All() || Loose(s))
      ensures q == if s in old(q.All()) then old(q.Hit(s)) else if strengthened then old(q.Create(s)) else old(q)
    {
      hide Ring, NoDup;
      Disjoint();
      Tags(s);
      match s.pred {
        case Unlinked =>
          if !strengthened { return; }
          EnterColdFront(s);
        case To(_, Hot) =>
          LeaveHot(s);
          EnterHotFront(s);
        case To(_, Cold) =>
          LeaveCold(s);
          EnterHotFront(s);
      }
      Rebalance();
    }

    method Size() returns (n: nat)
      requires Valid()
      ensures n == |q.All()|
    {
      n := hotLen + coldLen;
    }

    /** The coldest element, if there is one. */
    method Coldest() returns (s: Tagged)
      requires Valid()
      ensures s.To? <==> q.All() != []
      ensures s.To? ==> s.node == q.Coldest()
    {
      hide NoDup, Ring;
      Ends();
      if coldLen > 0 { return coldQ.pred; }
      if hotLen > 0 { return hotQ.pred; }
      return Unlinked;
    }

    /** Unlinks the coldest element. */
    method DropColdest() returns (r: ExpireLink)
      requires Valid() && q.All() != []
      modifies this, nodes
      ensures Valid() && Loose(r) && nodes == old(nodes) - {r}
      ensures r == old(q.Coldest()) && q == old(q.DropColdest())
    {
      hide Ring, NoDup;
      Disjoint();
      Ends();
      if coldLen > 0 {
        RemoveLast(q.cold);
        r := coldQ.pred.node;
        LeaveCold(r);
      } else {
        RemoveLast(q.hot);
        r := hotQ.pred.node;
        LeaveHot(r);
      }
    }
  }
}
