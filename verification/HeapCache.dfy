/** The cache object in memory. Its elements carry the link of their chain, the links of the expire queue, the slot
    and the lock count; its methods walk and relink them in place, and each is proved to take the state that this
    memory represents exactly where the functions of the other modules say. */
module HeapCache {
  import opened Sequences
  import opened QueueModel
  import opened ElementState
  import opened CacheState
  import opened Maintenance
  import opened Lookup
  import opened Mapping
  import opened ExpireQueue
  import opened HashTable
  import opened HashChains
  import opened Growth
  import opened Resize
  import opened Evolution
  import opened Operations
  import opened Destruction
  import Protocol
  import Sections
  import Steps

  /** An element with its parts: the node of its chain, the links of the queue, and what the decorators add. */
  class StoreType {
    const id: Id
    const key: Key
    const chain: Store
    const link: ExpireLink
    const maxAge: int
    var access: int
    var slot: Slot
    var useCount: nat

    constructor (id: Id, hash: nat, e: Elem)
      ensures this.id == id && AsElem() == e
      ensures fresh(chain) && chain.hash == hash && chain.owner == id && chain.successor == null
      ensures fresh(link) && link.owner == id && link.IsLoose()
    {
      var s := new Store(hash, id);
      var l := new ExpireLink.Loose(id);
      this.id, chain, link := id, s, l;
      key, slot, useCount, maxAge, access := e.key, e.slot, e.useCount, e.maxAge, e.access;
    }

    function AsElem(): Elem
      reads this
    {
      Elem(key, slot, useCount, maxAge, access)
    }
  }

  function OwnerOf(): Store -> Id {
    (s: Store) => s.owner
  }

  function LinkOwner(): ExpireLink -> Id {
    (l: ExpireLink) => l.owner
  }

  ghost function Links(ns: map<Id, StoreType>): set<ExpireLink> {
    set id | id in ns :: ns[id].link
  }

  /** The read-only walk over the bucket of key `k`, from its head. */
  ghost function SoughtPresent(c: Config, s: State, k: Key): Found
    requires Wf(c, s)
  {
    DeadBeforeNone(c, s, BucketOf(c, s, k), k);
    PeekScan(c, s, BucketOf(c, s, k), 0, k)
  }

  /** What a creation comes to that has started at time `at` and has just yielded `got`. */
  ghost function Landed(c: Config, s: State, t: Tid, k: Key, got: Made, at: int): Reply
    requires Operations.Valid(c) && Wf(c, s) && s.lf > 0.0 && !got.Throws?
  {
    hide Wf, Tends, AfterInsert;
    Sections.CreateFields(c, s, k, got, at);
    var r, id := Operations.Create(c, s, k, got, at), s.nextId;
    if Late(c, s, at) then Reply(Operations.FinishNow(c, r, id, {}), Returned(Null), true)
    else if got.Ready? then Reply(Operations.FinishNow(c, r, id, {got.v}), Returned(got.v), true)
    else Reply(FinishPromise(r, t, id, got.f), Waiting(got.f), true)
  }

  /** A lookup that misses reads the clock, lets the create function run and lands. */
  lemma GetLands(c: Config, s: State, t: Tid, k: Key, made: Made)
    requires Operations.Valid(c) && Inv(c, s) && t !in s.waiters && Find(c, s, k).Miss?
    ensures var s2, s3 := AskedAt(c, s, k), MadeAt(c, s, k); var got := Effective(c, s3, made);
      && Wf(c, s3) && s3.lf > 0.0
      && Get(c, s, t, k, made) == if got.Throws? then Reply(s3, Threw, false) else Landed(c, s3, t, k, got, s2.now)
  {
    hide Wf, Tends, Trims, Known, Locks, Unique, Observe, Scan, Dead, DeadBefore, Home;
    hide Operations.Serve, Operations.Create, Operations.FinishNow, Effective;
    var s2, s3 := AskedAt(c, s, k), MadeAt(c, s, k);
    TendsTrans(c, s, Find(c, s, k).s, s2);
    TendsTrans(c, s, s2, s3);
    SameNext(c, s, s3);
  }

  /** All elements of `a` are elements of `b`. */
  ghost predicate Within(a: map<Id, StoreType>, b: map<Id, StoreType>) {
    forall id :: id in a ==> id in b && a[id] == b[id]
  }

  class CacheImpl {
    const c: Config
    const table: Table
    const queue: BaseExpireQueue
    /** From the number of an element, which its parts know, to the element: what a downcast does. */
    var nodes: map<Id, StoreType>
    var size: int
    var lf: real
    var nextId: nat

    // The world around the cache: futures, waiting threads, holders of values and the clock.
    var futs: map<Fut, Option<Outcome>>
    var waiters: map<Tid, Wait>
    var held: set<Ptr>
    var pinned: set<Ptr>
    var born: set<Ptr>
    var now: int
    var tick: nat

    /** The state of the cache that this memory represents. */
    ghost var st: State
    /** All memory of the cache except this object. */
    ghost var repr: set<object>

    // ----- what the memory means

    /** The chains link the nodes of the elements `ns`, as the buckets say. */
    ghost predicate ChainsFit(ns: map<Id, StoreType>, buckets: seq<seq<Id>>)
      reads table, table.heads, table.home.Keys
    {
      && table.Valid()
      && (forall id :: id in ns ==>
            ns[id].chain in table.home && ns[id].chain.owner == id && ns[id].chain.hash == c.hash(ns[id].key))
      && (forall s :: s in table.home ==> s.owner in ns && ns[s.owner].chain == s)
      && buckets == MapChains(OwnerOf(), table.chains)
    }

    /** The lists of the queue link the elements `q`; all other elements are loose. */
    ghost predicate LinksFit(ns: map<Id, StoreType>, q: Queue<Id>)
      reads queue, queue.nodes, Links(ns)
    {
      && queue.Valid()
      && (forall id :: id in ns ==>
            ns[id].link.owner == id && (ns[id].link in queue.q.All() || queue.Loose(ns[id].link)))
      && (forall l :: l in queue.q.All() ==> l.owner in ns && ns[l.owner].link == l)
      && q == MapQueue(LinkOwner(), queue.q)
    }

    ghost predicate NodesFit(ns: map<Id, StoreType>, elems: map<Id, Elem>)
      reads ns.Values
    {
      && elems.Keys == ns.Keys
      && forall id :: id in ns ==> ns[id].id == id && elems[id] == ns[id].AsElem()
    }

    ghost predicate FieldsFit()
      reads this
    {
      && size == st.size && lf == st.lf && nextId == st.nextId && futs == st.futs && waiters == st.waiters
      && held == st.held && pinned == st.pinned && born == st.born && now == st.now && tick == st.tick
    }

    ghost predicate Owns()
      reads this, table, queue
    {
      && table in repr && table.heads in repr && table.home.Keys <= repr
      && queue in repr && queue.nodes <= repr && nodes.Values <= repr && Links(nodes) <= repr
    }

    ghost predicate Valid()
      reads this, table, queue, repr
    {
      && this !in repr && Owns() && FieldsFit()
      && ChainsFit(nodes, st.buckets) && LinksFit(nodes, st.queue) && NodesFit(nodes, st.elems)
    }

    /** This object is an element of the cache. */
    ghost predicate Has(n: StoreType)
      reads this
    {
      n.id in nodes && nodes[n.id] == n
    }

    constructor (c: Config, lf: real, held: set<Ptr>, now: int)
      ensures this.c == c && Valid() && fresh(repr) && st == Protocol.Fresh(lf, held, now)
    {
      hide Table.Valid, BaseExpireQueue.Valid, Queue.Rebalanced;
      var t := new Table(3);
      var q := new BaseExpireQueue();
      this.c, table, queue := c, t, q;
      nodes, size, this.lf, nextId := map[], 0, lf, 0;
      futs, waiters := map[], map[];
      this.held, pinned, born := held, {}, held;
      this.now, tick := now, 0;
      st, repr := Protocol.Fresh(lf, held, now), {t, t.heads, q} + q.nodes;
      new;
      assert MapChains(OwnerOf(), table.chains) == [[], [], []];
    }

    lemma At(id: Id)
      ensures Valid() ==> (id in st.elems <==> id in nodes)
      ensures Valid() && id in nodes ==>
        && Has(nodes[id]) && nodes[id].id == nodes[id].chain.owner == id
        && nodes[id] in nodes.Values && st.elems[id] == nodes[id].AsElem()
        && nodes[id].chain.hash == c.hash(nodes[id].key)
    {
    }

    /** The chain of bucket `b` holds the elements of the bucket. */
    lemma ChainAt(b: nat)
      requires ChainsFit(nodes, st.buckets) && b < table.heads.Length
      ensures table.heads.Length == |table.chains| == |st.buckets| && |st.buckets[b]| == |table.chains[b]|
      ensures forall i :: 0 <= i < |st.buckets[b]| ==>
        table.chains[b][i].owner == st.buckets[b][i] && ChainedNode(table.chains[b][i])
    {
      hide IsChain, NoDup;
      forall i | 0 <= i < |table.chains[b]| ensures ChainedNode(table.chains[b][i]) {
        assert table.chains[b][i] in table.chains[b];
      }
    }

    ghost predicate ChainedNode(s: Store)
      reads this
    {
      s.owner in nodes && nodes[s.owner].chain == s
    }

    /** Does the pointee of a weak pointer still exist? */
    predicate IsAlive(v: Ptr)
      requires Valid()
      reads this, table, queue, repr
      ensures IsAlive(v) <==> Alive(st, v)
    {
      hide ChainsFit, LinksFit;
      || v in held
      || v in pinned
      || (exists id :: id in nodes && Holds(futs, nodes[id].slot, v))
      || (exists t :: t in waiters && Completed(futs, waiters[t].fut, v))
    }

    /** `is_expired` of an element: its decorators' verdict, then its own. */
    predicate Expired(n: StoreType)
      requires Valid() && Has(n)
      reads this, table, queue, repr
      ensures Expired(n) <==> IsExpired(c, st, st.elems[n.id])
    {
      hide ChainsFit, LinksFit;
      || (c.maxAge.Some? && now > n.maxAge)
      || match n.slot
         case Empty => true
         case Weak(v) => v == Null || !IsAlive(v)
         case Strong(v) => v == Null
         case Pending(_, _, _) => false
    }

    // ----- the smallest steps

    /** Assigning to the fields of the cache touches no element. */
    twostate lemma WorldFrame(s: State)
      requires unchanged(old(repr)) && nodes.Values <= old(repr) && Links(nodes) <= old(repr)
      ensures var ns := nodes; old(Owns()) && this !in old(repr) ==>
        && (repr == old(repr) ==> Owns())
        && (old(ChainsFit(ns, s.buckets)) ==> ChainsFit(ns, s.buckets))
        && (old(LinksFit(ns, s.queue)) ==> LinksFit(ns, s.queue))
        && (old(NodesFit(ns, s.elems)) ==> NodesFit(ns, s.elems))
    {
      hide Table.Valid, BaseExpireQueue.Valid;
    }

    /** The world moves on before the cache looks at the clock or at a pointee. */
    method Look()
      requires Valid()
      modifies `held, `now, `tick, `st
      ensures Valid() && st == Observe(c, old(st))
    {
      hide ChainsFit, LinksFit, NodesFit, Owns, Alive, IsAlive;
      OwnsParts();
      var e := c.world(tick);
      var taken := set v | v in e.take && IsAlive(v);
      assert taken == set v | v in e.take && Alive(st, v);
      held := held - e.drop + taken;
      now := now + e.elapsed;
      tick := tick + 1;
      st := Observe(c, st);
      WorldFrame(st);
    }

    /** Assigning to a field of an element touches neither chains nor lists. */
    twostate lemma FieldFrame(n: StoreType)
      requires old(Valid()) && old(Has(n)) && nodes == old(nodes) && repr == old(repr)
      requires unchanged(table) && unchanged(queue) && unchanged(old(repr) - {n})
      ensures Owns() && ChainsFit(nodes, old(st.buckets)) && LinksFit(nodes, old(st.queue))
    {
      hide Table.Valid, BaseExpireQueue.Valid;
      ghost var o: object, lists: set<object>, chains: set<object> := n, queue.nodes + Links(nodes), table.home.Keys;
      assert o !in lists && o !in chains;
    }

    method SetSlot(n: StoreType, x: Slot)
      requires Valid() && Has(n)
      modifies n`slot, `st
      ensures Valid() && n.id in old(st).elems && st == WithSlot(old(st), n.id, x)
    {
      hide ChainsFit, LinksFit, Owns;
      OwnsNodes();
      n.slot := x;
      st := WithSlot(st, n.id, x);
      FieldFrame(n);
    }

    method SetAccess(n: StoreType, deadline: int)
      requires Valid() && Has(n)
      modifies n`access, `st
      ensures Valid() && n.id in old(st).elems && st == Touch(old(st), n.id, deadline)
    {
      hide ChainsFit, LinksFit, Owns;
      OwnsNodes();
      n.access := deadline;
      st := Touch(st, n.id, deadline);
      FieldFrame(n);
    }

    /** Takes or releases a delete-lock. */
    method Lock(n: StoreType, delta: int)
      requires Valid() && Has(n) && n.useCount + delta >= 0
      modifies n`useCount, `st
      ensures Valid() && n.id in old(st).elems && old(st).elems[n.id].useCount + delta >= 0
      ensures st == WithLock(old(st), n.id, delta)
    {
      hide ChainsFit, LinksFit, Owns;
      OwnsNodes();
      n.useCount := n.useCount + delta;
      st := WithLock(st, n.id, delta);
      FieldFrame(n);
    }

    lemma OwnsNodes()
      ensures Valid() ==> nodes.Values <= repr && this !in repr
    {
    }

    lemma OwnsParts()
      ensures Valid() ==> Owns() && this !in repr && table in repr && table.heads in repr && queue in repr
      ensures Valid() ==> table.home.Keys <= repr && queue.nodes <= repr && Links(nodes) <= repr
    {
    }

    // ----- chains

    static lemma OwnersApart(ns: map<Id, StoreType>, chains: seq<seq<Store>>, home: map<Store, nat>, b: nat, s: Store)
      requires Homes(chains, home) && b < |chains| && s in home
      requires forall x :: x in home ==> x.owner in ns && ns[x.owner].chain == x
      ensures forall x :: x in chains[b] && OwnerOf()(x) == OwnerOf()(s) ==> x == s
    {
      HomesApart(chains, home, b);
    }

    /** A walk has come to position `i` of chain `b`; `prev` is the node before it, null standing for the bucket
        itself. */
    ghost predicate Pos(b: nat, prev: Store?, i: nat)
      reads table
    {
      && b < table.heads.Length == |table.chains| && i <= |table.chains[b]|
      && prev == if i == 0 then null else table.chains[b][i - 1]
    }

    /** The walk has come to the end of chain `b`. */
    ghost predicate AtEnd(b: nat, prev: Store?)
      reads table
    {
      b < |table.chains| && Pos(b, prev, |table.chains[b]|)
    }

    /** The walk looks at `n`, the element at position `i` of bucket `b`; null past its end. */
    ghost predicate Walks(b: nat, prev: Store?, i: nat, n: StoreType?)
      reads this, table
    {
      && Pos(b, prev, i)
      && |st.buckets| == |table.chains| && i <= |st.buckets[b]| == |table.chains[b]|
      && (n == null <==> i == |st.buckets[b]|)
      && (n != null ==> Has(n) && n.id == st.buckets[b][i] && n.chain == table.chains[b][i])
    }

    /** The element at which a walk has come; null at the end of the chain. */
    method Current(b: nat, prev: Store?, ghost i: nat) returns (n: StoreType?)
      requires Valid() && Pos(b, prev, i)
      ensures Walks(b, prev, i, n)
    {
      hide LinksFit, NodesFit;
      ChainAt(b);
      var s := table.Load(b, prev, i);
      n := if s == null then null else nodes[s.owner];
      if n != null { At(s.owner); }
    }

    lemma ChainGap(b: nat, i: nat)
      requires ChainsFit(nodes, st.buckets) && b < table.heads.Length && i < |table.chains[b]|
      ensures var c := table.chains[b]; Remove(c, c[i]) == c[..i] + c[i + 1..]
    {
      assert IsChain(table.heads[b], table.chains[b]);
      RemoveAt(table.chains[b], i);
    }

    /** Cuts an element out of its chain. */
    method LeaveChain(b: nat, prev: Store?, n: StoreType, ghost i: nat)
      requires ChainsFit(nodes, st.buckets) && Has(n)
      requires Pos(b, prev, i) && i < |table.chains[b]| && n.chain == table.chains[b][i]
      modifies table, table.heads, table.home.Keys
      ensures table.heads == old(table.heads) && table.home.Keys <= old(table.home.Keys)
      ensures |st.buckets| == table.heads.Length
      ensures ChainsFit(nodes - {n.id}, st.buckets[b := Remove(st.buckets[b], n.id)])
      ensures table.chains == old(table.chains)[b := Remove(old(table.chains)[b], n.chain)]
      ensures n.chain.successor == old(n.chain.successor)
    {
      hide NoDup, Remove, Homes, IsChain;
      OwnersApart(nodes, table.chains, table.home, b, n.chain);
      MapRemove(OwnerOf(), table.chains[b], n.chain);
      MapUpdate(OwnerOf(), table.chains, b, Remove(table.chains[b], n.chain));
      table.Cut(b, prev, n.chain, i);
    }

    // ----- lists

    static lemma LinksApart(ns: map<Id, StoreType>, q: Queue<ExpireLink>, n: StoreType)
      requires n.id in ns && ns[n.id] == n && n.link.owner == n.id
      requires forall l :: l in q.All() ==> l.owner in ns && ns[l.owner].link == l
      ensures forall l :: l in q.All() && LinkOwner()(l) == LinkOwner()(n.link) ==> l == n.link
    {
    }

    /** Takes an element off its list, if it is on one. */
    method LeaveQueue(n: StoreType)
      requires LinksFit(nodes, st.queue) && Has(n)
      modifies queue, queue.nodes
      ensures LinksFit(nodes - {n.id}, st.queue.Delete(n.id)) && queue.nodes <= old(queue.nodes)
    {
      hide BaseExpireQueue.Valid, Queue.Delete, Remove;
      LinksApart(nodes, queue.q, n);
      MapDelete(LinkOwner(), queue.q, n.link);
      queue.InNodes();
      queue.OnDelete(n.link);
      queue.InNodes();
    }

    // ----- removal

    /** The nodes of chains, the links of lists and the elements are different objects. */
    lemma PartsApart()
      ensures var stores: set<object>, lists: set<object>, elements: set<object> :=
        table.home.Keys + {table.heads}, queue.nodes + Links(nodes), nodes.Values;
        stores !! lists && lists !! elements && elements !! stores
    {
    }

    lemma NodeGone(id: Id)
      ensures NodesFit(nodes, st.elems) ==> NodesFit(nodes - {id}, st.elems - {id})
      ensures (nodes - {id}).Values <= nodes.Values && Links(nodes - {id}) <= Links(nodes)
    {
    }

    /** Takes an element out of its chain and off the queue. */
    method Leave(b: nat, prev: Store?, n: StoreType, ghost i: nat)
      requires ChainsFit(nodes, st.buckets) && LinksFit(nodes, st.queue) && NodesFit(nodes, st.elems) && Has(n)
      requires Pos(b, prev, i) && i < |table.chains[b]| && n.chain == table.chains[b][i]
      modifies table, table.heads, table.home.Keys, queue, queue.nodes
      ensures table.heads == old(table.heads) && table.home.Keys <= old(table.home.Keys)
      ensures queue.nodes <= old(queue.nodes) && n.chain.successor == old(n.chain.successor)
      ensures |st.buckets| == table.heads.Length
      ensures table.chains == old(table.chains)[b := Remove(old(table.chains)[b], n.chain)]
      ensures ChainsFit(nodes - {n.id}, st.buckets[b := Remove(st.buckets[b], n.id)])
      ensures LinksFit(nodes - {n.id}, st.queue.Delete(n.id)) && NodesFit(nodes - {n.id}, st.elems - {n.id})
    {
      hide ChainsFit, LinksFit, NodesFit, Remove, Table.Valid;
      PartsApart();
      LeaveChain(b, prev, n, i);
      LeaveQueue(n);
      NodeGone(n.id);
    }

    /** The element that has left its chain and the queue is counted out and destroyed. */
    method CountOut(n: StoreType)
      requires Owns() && FieldsFit() && this !in repr && Has(n) && Wf(c, st) && n.id in st.elems
      requires LinksFit(nodes - {n.id}, st.queue.Delete(n.id)) && NodesFit(nodes - {n.id}, st.elems - {n.id})
      requires ChainsFit(nodes - {n.id}, Discard(c, st, n.id).buckets)
      modifies `size, `nodes, `st
      ensures Valid() && st == Discard(c, old(st), n.id) && nodes == old(nodes) - {n.id}
    {
      hide ChainsFit, LinksFit, NodesFit, Home, Remove, Wf, Table.Valid;
      NodeGone(n.id);
      size := size - 1;
      nodes := nodes - {n.id};
      st := Discard(c, st, n.id);
      WorldFrame(st);
    }

    /** Unlinks the element that stands at position `i` of chain `b`, takes it off the queue and destroys it. */
    method EraseAt(b: nat, prev: Store?, n: StoreType, ghost i: nat)
      requires Valid() && Has(n) && Wf(c, st)
      requires Pos(b, prev, i) && i < |table.chains[b]| && n.chain == table.chains[b][i]
      modifies this, repr
      ensures Valid() && repr == old(repr) && n.id in old(st).elems && st == Discard(c, old(st), n.id)
      ensures Pos(b, prev, i) && nodes == old(nodes) - {n.id}
    {
      hide ChainsFit, LinksFit, NodesFit, Home, Remove, Wf, Table.Valid;
      ChainGap(b, i);
      At(n.id);
      ChainAt(b);
      ChainWf(c, st, b);
      assert Home(c, |st.buckets|, st.elems[n.id].key) == b;
      Leave(b, prev, n, i);
      CountOut(n);
    }

    /** Finds the element in its chain, from the bucket on, and erases it. */
    method BucketErase(b: nat, n: StoreType)
      requires Valid() && Has(n) && Wf(c, st) && b < |st.buckets| && n.id in st.buckets[b]
      modifies this, repr
      ensures Valid() && repr == old(repr) && n.id in old(st).elems && st == Discard(c, old(st), n.id)
      ensures nodes == old(nodes) - {n.id}
    {
      hide Valid, Wf, Discard;
      Buckets();
      var prev: Store? := null;
      ghost var i := 0;
      var cur := Current(b, prev, i);
      while cur != n
        invariant cur != null && Walks(b, prev, i, cur) && n.id in st.buckets[b][i..]
        decreases |st.buckets[b]| - i
        modifies {}
      {
        prev := cur.chain;
        i := i + 1;
        cur := Current(b, prev, i);
      }
      EraseAt(b, prev, n, i);
    }

    lemma Buckets()
      ensures Valid() ==> table.heads.Length == |table.chains| == |st.buckets| > 0
    {
    }

    /** Removes an element that is expired and not locked against deletion. */
    method EraseIfExpired(n: StoreType) returns (done: bool)
      requires Valid() && Has(n) && Wf(c, st)
      modifies this, repr
      ensures Valid() && repr == old(repr) && n.id in old(st).elems
      ensures nodes == if done then old(nodes) - {n.id} else old(nodes)
      ensures Erased(st, done) == Maintenance.EraseIfExpired(c, old(st), n.id)
    {
      hide Valid, Wf, Tends, Discard, Observe, Expired;
      At(n.id);
      if n.useCount != 0 { return false; }
      Look();
      At(n.id);
      if !Expired(n) { return false; }
      ExpiredIsDead(c, st, n.id);
      AtHome(c, st, n.id);
      Buckets();
      BucketErase(n.chain.hash % table.heads.Length, n);
      return true;
    }

    // ----- the queue's maintenance loops

    /** The element that is evicted next. */
    method Coldest() returns (n: StoreType?)
      requires Valid()
      ensures n == null <==> st.queue.All() == []
      ensures n != null ==> Has(n) && n.id == st.queue.Coldest()
    {
      hide ChainsFit, NodesFit, BaseExpireQueue.Valid;
      var t := queue.Coldest();
      if t.Unlinked? { return null; }
      MapDrop(LinkOwner(), queue.q);
      At(t.node.owner);
      return nodes[t.node.owner];
    }

    /** After a hit or a creation: erases expired elements from the cold end, up to the first one that stays. */
    method Cleanup()
      requires Valid() && Wf(c, st)
      modifies this, repr
      ensures Valid() && repr == old(repr) && Within(nodes, old(nodes))
      ensures st == Maintenance.Cleanup(c, old(st))
    {
      hide Valid, Wf, Tends, SameAccess, Maintenance.EraseIfExpired;
      var s := Coldest();
      while s != null
        invariant Valid() && repr == old(repr) && Within(nodes, old(nodes)) && Wf(c, st)
        invariant s == null <==> st.queue.All() == []
        invariant s != null ==> Has(s) && s.id == st.queue.Coldest()
        invariant Maintenance.Cleanup(c, st) == Maintenance.Cleanup(c, old(st))
        decreases |st.queue.All()|
      {
        LinkedExists(c, st);
        var done := EraseIfExpired(s);
        if !done { return; }
        s := Coldest();
      }
    }

    // ----- steps of the queue

    /** Relinking the lists touches neither chains nor slots. */
    twostate lemma QueueFrame()
      requires nodes == old(nodes) && repr == old(repr) && table.heads == old(table.heads)
      requires table.home == old(table.home)
      requires unchanged(old(repr) - {queue} - old(queue.nodes) - Links(old(nodes)))
      ensures old(Valid()) ==> this !in repr && ChainsFit(nodes, old(st.buckets)) && NodesFit(nodes, old(st.elems))
      ensures old(Valid()) && queue.nodes <= old(queue.nodes) + Links(nodes) ==> Owns()
    {
      hide Table.Valid, BaseExpireQueue.Valid;
    }

    method EvenOut()
      requires LinksFit(nodes, st.queue)
      modifies queue, queue.nodes
      ensures LinksFit(nodes, st.queue.Rebalanced()) && queue.nodes == old(queue.nodes)
    {
      hide BaseExpireQueue.Valid, Queue.Rebalanced;
      MapRebalanced(LinkOwner(), queue.q);
      queue.InNodes();
      queue.Rebalance();
    }

    method Rebalance()
      requires Valid()
      modifies queue, queue.nodes, `st
      ensures Valid() && repr == old(repr) && nodes == old(nodes)
      ensures st == old(st).(queue := old(st.queue.Rebalanced()))
    {
      hide ChainsFit, NodesFit, LinksFit, Owns, Queue.Rebalanced;
      OwnsParts();
      EvenOut();
      st := st.(queue := st.queue.Rebalanced());
      QueueFrame();
    }

    /** A step of the queue that moves one element, puts it on a list or takes it off, leaves all other elements where
        they are. */
    twostate lemma Relinked(n: StoreType)
      requires nodes == old(nodes) && unchanged(Links(nodes) - old(queue.nodes) - {n.link})
      requires forall x :: x in queue.q.All() ==> x in old(queue.q.All()) || x == n.link
      requires forall x :: x in old(queue.q.All()) && x != n.link ==> x in queue.q.All()
      requires n.link in queue.q.All() || queue.Loose(n.link)
      ensures old(LinksFit(nodes, st.queue)) && Has(n) && queue.Valid() ==>
          LinksFit(nodes, MapQueue(LinkOwner(), queue.q))
    {
      hide Ring, NoDup;
    }

    lemma Lengths()
      ensures Valid() ==> queue.coldLen == |st.queue.cold| && queue.hotLen == |st.queue.hot|
    {
    }

    method CutColdest()
      requires LinksFit(nodes, st.queue) && NodesFit(nodes, st.elems) && st.queue.All() != []
      modifies queue, queue.nodes
      ensures LinksFit(nodes, st.queue.DropColdest()) && queue.nodes <= old(queue.nodes)
    {
      hide BaseExpireQueue.Valid, Queue.DropColdest, Queue.Coldest;
      MapDrop(LinkOwner(), queue.q);
      ghost var was := queue.q.All();
      var l := queue.DropColdest();
      ghost var n := nodes[l.owner];
      DropMoves(was, queue.q.All());
      Relinked(n);
    }

    static lemma DropMoves(was: seq<ExpireLink>, all: seq<ExpireLink>)
      requires was != [] && all == was[..|was| - 1]
      ensures forall x :: x in all ==> x in was
      ensures forall x :: x in was && x != was[|was| - 1] ==> x in all
    {
    }

    /** Takes the coldest element off its list. */
    method DropColdest()
      requires Valid() && st.queue.All() != []
      modifies queue, queue.nodes, `st
      ensures Valid() && repr == old(repr) && nodes == old(nodes)
      ensures st == old(st).(queue := old(st.queue.DropColdest()))
    {
      hide ChainsFit, NodesFit, LinksFit, Owns, Queue.DropColdest;
      OwnsParts();
      CutColdest();
      st := st.(queue := st.queue.DropColdest());
      QueueFrame();
    }

    /** Is the element on a list? Its link pointers tell. */
    lemma LinkTells(n: StoreType)
      ensures LinksFit(nodes, st.queue) && Has(n) ==> (n.link.pred.To? <==> n.id in st.queue.All())
    {
      if LinksFit(nodes, st.queue) && Has(n) {
        hide BaseExpireQueue.Valid;
        queue.Tags(n.link);
        LinksApart(nodes, queue.q, n);
        MapMembers(queue.q.All(), n.link);
      }
    }

    static lemma MapMembers(ls: seq<ExpireLink>, l: ExpireLink)
      requires forall x :: x in ls && x.owner == l.owner ==> x == l
      ensures l in ls <==> l.owner in Map(LinkOwner(), ls)
    {
      if i :| 0 <= i < |ls| && ls[i] == l {
        assert Map(LinkOwner(), ls)[i] == l.owner;
      }
    }

    static lemma HitMoves(q: Queue<ExpireLink>, l: ExpireLink)
      ensures l in q.All() ==> forall x :: x in q.Hit(l).All() <==> x in q.All()
      ensures forall x :: x in q.Create(l).All() <==> x in q.All() || x == l
    {
      hide Queue.Hit, Queue.Create, Remove;
      var i := |q.hot|;
      assert q.All() == q.All()[..i] + q.All()[i..];
    }

    method RelinkHit(n: StoreType, strengthened: bool)
      requires LinksFit(nodes, st.queue) && Has(n)
      modifies queue, queue.nodes, n.link
      ensures LinksFit(nodes, if n.id in st.queue.All() then st.queue.Hit(n.id)
                              else if strengthened then st.queue.Create(n.id) else st.queue)
      ensures queue.nodes <= old(queue.nodes) + {n.link}
    {
      hide BaseExpireQueue.Valid, Queue.Hit, Queue.Create, Queue.All, MapQueue;
      LinksApart(nodes, queue.q, n);
      MapMembers(queue.q.All(), n.link);
      HitMoves(queue.q, n.link);
      if n.link in queue.q.All() {
        MapHit(LinkOwner(), queue.q, n.link);
      } else {
        MapCreate(LinkOwner(), queue.q, n.link);
      }
      queue.OnHit(n.link, strengthened);
      Relinked(n);
    }

    /** The queue's reaction to a hit. */
    method MoveHit(n: StoreType, strengthened: bool)
      requires Valid() && Has(n)
      modifies queue, queue.nodes, n.link, `st
      ensures Valid() && repr == old(repr) && nodes == old(nodes)
      ensures st == old(st).(queue := if n.id in old(st.queue).All() then old(st.queue).Hit(n.id)
                                      else if strengthened then old(st.queue).Create(n.id) else old(st.queue))
    {
      hide ChainsFit, NodesFit, LinksFit, Owns, Queue.Hit, Queue.Create, Queue.All;
      OwnsParts();
      InLinks(n);
      RelinkHit(n, strengthened);
      st := st.(queue := if n.id in st.queue.All() then st.queue.Hit(n.id)
                         else if strengthened then st.queue.Create(n.id) else st.queue);
      QueueFrame();
    }

    lemma InLinks(n: StoreType)
      ensures Has(n) ==> n.link in Links(nodes) && n in nodes.Values
    {
    }

    // ----- evictions

    method PopColdest() returns (n: StoreType)
      requires Valid() && Wf(c, st) && st.queue.All() != []
      modifies this, repr
      ensures Valid() && repr == old(repr) && nodes == old(nodes) && Has(n) && n.id == old(st.queue.Coldest())
      ensures st == CacheState.PopColdest(c, old(st))
    {
      hide Valid, Wf, Tends, Queue.DropColdest, Queue.Coldest;
      LinkedExists(c, st);
      n := Coldest();
      At(n.id);
      OwnsNodes();
      OwnsParts();
      SetSlot(n, Weakened(n.slot));
      OwnsParts();
      DropColdest();
    }

    /** Weakens and unlinks the coldest element, then erases it if that made it expire. */
    method EvictColdest()
      requires Valid() && Wf(c, st) && st.queue.All() != []
      modifies this, repr
      ensures Valid() && repr == old(repr) && Within(nodes, old(nodes))
      ensures st == EvictOne(c, old(st))
    {
      hide Valid, Wf, Tends, SameAccess, CacheState.PopColdest, Maintenance.EraseIfExpired;
      var n := PopColdest();
      var _ := EraseIfExpired(n);
    }

    method ShrinkToSize(newSize: nat)
      requires Valid() && Wf(c, st)
      modifies this, repr
      ensures Valid() && repr == old(repr) && Within(nodes, old(nodes))
      ensures st == Maintenance.ShrinkToSize(c, old(st), newSize)
    {
      hide Valid, Wf, Tends, SameAccess, EvictOne, Queue.Rebalanced;
      Lengths();
      while queue.coldLen > 0 && queue.coldLen + queue.hotLen > newSize
        invariant Valid() && repr == old(repr) && Within(nodes, old(nodes)) && Wf(c, st)
        invariant queue.coldLen == |st.queue.cold| && queue.hotLen == |st.queue.hot|
        invariant EvictTo(c, st, newSize) == EvictTo(c, old(st), newSize)
        decreases queue.coldLen
      {
        EvictColdest();
        Lengths();
      }
      if queue.coldLen == 0 {
        while queue.hotLen > newSize
          invariant Valid() && repr == old(repr) && Within(nodes, old(nodes)) && Wf(c, st)
          invariant queue.coldLen == 0 == |st.queue.cold| && queue.hotLen == |st.queue.hot|
          invariant EvictTo(c, st, newSize) == EvictTo(c, old(st), newSize)
          decreases queue.hotLen
        {
          EvictColdest();
          Lengths();
        }
      }
      OwnsParts();
      Rebalance();
    }

    /** One round: the coldest element is evicted unless its access deadline is `deadline` or later. */
    method EvictStaleOne(deadline: int) returns (stop: bool)
      requires Valid() && Wf(c, st) && st.queue.All() != []
      modifies this, repr
      ensures Valid() && repr == old(repr) && Within(nodes, old(nodes))
      ensures Wf(c, st) && (stop ==> st == old(st))
      ensures !stop ==> st.queue == old(st.queue).DropColdest()
      ensures EvictStale(c, st, deadline) == EvictStale(c, old(st), deadline)
      ensures stop ==> EvictStale(c, st, deadline) == st
    {
      hide Valid, Wf, Tends, SameAccess, StaleCut, EvictOne, Queue.DropColdest, Queue.Coldest;
      LinkedExists(c, st);
      var r := Coldest();
      At(r.id);
      if r.access >= deadline { return true; }
      EvictColdest();
      return false;
    }

    /** Drops the coldest elements as long as their access deadline lies before `deadline`. */
    method ShrinkStale(deadline: int)
      requires Valid() && Wf(c, st)
      modifies this, repr
      ensures Valid() && repr == old(repr) && Within(nodes, old(nodes))
      ensures st == Maintenance.ShrinkStale(c, old(st), deadline)
    {
      hide Valid, Wf, Tends, SameAccess, EvictStale, Queue.Rebalanced;
      var stop := false;
      Lengths();
      while !stop && queue.coldLen > 0
        invariant Valid() && repr == old(repr) && Within(nodes, old(nodes)) && Wf(c, st)
        invariant queue.coldLen == |st.queue.cold| && queue.hotLen == |st.queue.hot|
        invariant EvictStale(c, st, deadline) == EvictStale(c, old(st), deadline)
        invariant stop ==> EvictStale(c, st, deadline) == st
        decreases queue.coldLen, !stop
      {
        stop := EvictStaleOne(deadline);
        Lengths();
      }
      while !stop && queue.hotLen > 0
        invariant Valid() && repr == old(repr) && Within(nodes, old(nodes)) && Wf(c, st)
        invariant queue.coldLen == |st.queue.cold| && queue.hotLen == |st.queue.hot| && (stop || queue.coldLen == 0)
        invariant EvictStale(c, st, deadline) == EvictStale(c, old(st), deadline)
        invariant stop ==> EvictStale(c, st, deadline) == st
        decreases queue.hotLen, !stop
      {
        stop := EvictStaleOne(deadline);
        Lengths();
      }
      EvictStaleNone(deadline, stop);
      OwnsParts();
      Rebalance();
    }

    lemma EvictStaleNone(deadline: int, stop: bool)
      requires Wf(c, st) && (stop ==> EvictStale(c, st, deadline) == st) && (!stop ==> st.queue.All() == [])
      ensures EvictStale(c, st, deadline) == st
    {
    }

    // ----- the decorators

    /** A linked element moves to the front; an unlinked one is strengthened and, if that succeeds, linked. */
    method HitQueue(n: StoreType)
      requires Valid() && Has(n) && Wf(c, st)
      modifies this, repr
      ensures Valid() && repr == old(repr) && nodes == old(nodes) && n.id in old(st).elems
      ensures st == Maintenance.HitQueue(c, old(st), n.id)
    {
      hide Valid, LinksFit, Wf, Tends, Observe, Alive, Queue.Hit, Queue.Create, IsAlive;
      At(n.id);
      InLinks(n);
      OwnsParts();
      QueueFits();
      LinkTells(n);
      if n.link.pred.To? {
        MoveHit(n, false);
      } else {
        Look();
        At(n.id);
        var y := Strengthened(n.slot, n.slot.Weak? && IsAlive(n.slot.v));
        ghost var s1 := st;
        SetSlot(n, y);
        assert y.Weak? ==> st.elems == s1.elems;
        OwnsParts();
        MoveHit(n, !y.Weak?);
      }
    }

    /** An element that still exists is still the same object. */
    lemma StillHas(ns: map<Id, StoreType>, n: StoreType)
      requires n.id in ns && ns[n.id] == n && Within(nodes, ns)
      ensures Valid() && n.id in st.elems ==> Has(n)
    {
    }

    lemma QueueFits()
      ensures Valid() ==> LinksFit(nodes, st.queue)
    {
    }

    method QueueOnHit(n: StoreType)
      requires Valid() && Has(n) && Wf(c, st)
      modifies this, repr
      ensures Valid() && repr == old(repr) && Within(nodes, old(nodes))
      ensures n.id in old(st).elems && st == Maintenance.QueueOnHit(c, old(st), n.id)
    {
      hide Valid, Wf, Tends, SameAccess, Maintenance.Cleanup, Maintenance.HitQueue;
      At(n.id);
      if !c.queued { return; }
      HitQueue(n);
      Cleanup();
    }

    method AccessOnHit(n: StoreType)
      requires Valid() && Has(n) && Wf(c, st)
      modifies this, repr
      ensures Valid() && repr == old(repr) && Within(nodes, old(nodes))
      ensures n.id in old(st).elems && st == Maintenance.AccessOnHit(c, old(st), n.id)
    {
      hide Valid, Wf, Tends, Maintenance.ShrinkStale, Observe;
      At(n.id);
      if c.accessExpire.None? { return; }
      Look();
      TouchTends(c, st, n.id, now + c.accessExpire.value);
      Fields();
      InLinks(n);
      OwnsNodes();
      SetAccess(n, now + c.accessExpire.value);
      Fields();
      ShrinkStale(now);
    }

    lemma Fields()
      ensures Valid() ==> FieldsFit()
    {
    }

    method AccessOnCreate()
      requires Valid() && Wf(c, st)
      modifies this, repr
      ensures Valid() && repr == old(repr) && Within(nodes, old(nodes))
      ensures st == Maintenance.AccessOnCreate(c, old(st))
    {
      hide Valid, Wf, Tends, Maintenance.ShrinkStale, Observe;
      if c.accessExpire.None? { return; }
      Look();
      Fields();
      ShrinkStale(now);
    }

    method ApplyMaxSize()
      requires Valid() && Wf(c, st)
      modifies this, repr
      ensures Valid() && repr == old(repr) && Within(nodes, old(nodes))
      ensures st == Maintenance.ApplyMaxSize(c, old(st))
    {
      hide Valid, Wf, Tends, Maintenance.ShrinkToSize;
      if c.maxSize.None? { return; }
      ShrinkToSize(c.maxSize.value);
    }

    /** All decorators react to a hit, one after the other. The element is locked, so that none of them erases it. */
    method OnHit(n: StoreType)
      requires Valid() && Has(n) && Wf(c, st) && n.useCount > 0
      modifies this, repr
      ensures Valid() && repr == old(repr) && Within(nodes, old(nodes)) && Has(n)
      ensures n.id in old(st).elems && old(st).elems[n.id].useCount > 0
      ensures st == Maintenance.OnHit(c, old(st), n.id)
    {
      hide Valid, Wf, Tends, Maintenance.QueueOnHit, Maintenance.AccessOnHit, Maintenance.ApplyMaxSize;
      ghost var ns := nodes;
      At(n.id);
      QueueOnHit(n);
      ServedStays(c, old(st), st, n.id);
      StillHas(ns, n);
      AccessOnHit(n);
      ApplyMaxSize();
      assert st == Maintenance.OnHit(c, old(st), n.id);
      StillHas(ns, n);
    }

    // ----- the walks over a bucket

    /** Looks at the element at position `i` of a chain and erases it if it is expired and not locked. */
    method Sweep(b: nat, prev: Store?, n: StoreType, ghost i: nat) returns (expired: bool, gone: bool)
      requires Valid() && Has(n) && Wf(c, st)
      requires Pos(b, prev, i) && i < |table.chains[b]| && n.chain == table.chains[b][i]
      modifies this, repr
      ensures Valid() && repr == old(repr) && Within(nodes, old(nodes)) && Pos(b, prev, i)
      ensures n.id in old(st).elems
      ensures Lookup.Sweep(c, old(st), n.id) == if gone then Drops(st) else if expired then Keeps(st) else Lives(st)
      ensures !gone ==> Has(n) && table.chains == old(table.chains)
    {
      hide Valid, Wf, Tends, Trims, Observe, Home, Discard, Expired;
      At(n.id);
      Look();
      ExpiredIsDead(c, st, n.id);
      At(n.id);
      if !Expired(n) { return false, false; }
      if n.useCount != 0 { return true, false; }
      EraseAt(b, prev, n, i);
      return true, true;
    }

    /** Visits one element of a chain in search of key `k`. */
    method Visit(b: nat, prev: Store?, n: StoreType, k: Key, recheck: bool, ghost i: nat)
      returns (found: bool, got: Content, gone: bool)
      requires Valid() && Has(n) && Wf(c, st)
      requires Pos(b, prev, i) && i < |table.chains[b]| && n.chain == table.chains[b][i]
      modifies this, repr
      ensures Valid() && repr == old(repr) && Within(nodes, old(nodes)) && Pos(b, prev, i)
      ensures n.id in old(st).elems
      ensures LookAt(c, old(st), n.id, k, recheck) ==
              if found then Matches(st, got) else if gone then Leaves(st) else Stays(st)
      ensures !gone ==> Has(n) && table.chains == old(table.chains)
      ensures found ==> !gone
    {
      hide Valid, Wf, Tends, Trims, Observe, Home, Alive, Dead, Lookup.Sweep, IsExpired, Expired;
      got := Nothing;
      var expired;
      expired, gone := Sweep(b, prev, n, i);
      At(n.id);
      if expired || gone || n.key != k { return false, got, gone; }
      if recheck {
        Look();
        At(n.id);
        if Expired(n) { return false, got, false; }
      }
      return true, Core(n.slot), false;
    }

    method BucketAt(k: Key) returns (b: nat)
      requires Valid() && Wf(c, st)
      ensures b == BucketOf(c, st, k)
    {
      hide Wf;
      b := c.hash(k) % table.heads.Length;
    }

    /** One round of the walk: the element either matches, or the walk goes on with the next one. */
    method Round(b: nat, prev: Store?, s: StoreType, k: Key, recheck: bool, ghost i: nat)
      returns (found: bool, got: Content, prev': Store?, s': StoreType?, ghost i': nat)
      requires Valid() && Wf(c, st) && Walks(b, prev, i, s) && b == Home(c, |st.buckets|, k)
      requires DeadBefore(c, st, b, i, k)
      modifies this, repr
      ensures Valid() && repr == old(repr) && Within(nodes, old(nodes)) && Wf(c, st)
      ensures |st.buckets| == |old(st.buckets)|
      ensures Walks(b, prev', i', s')
      ensures found ==> s' == s && prev' == prev && Scan(c, old(st), b, i, k, recheck) == Hit(st, s.id, got)
      ensures !found ==> DeadBefore(c, st, b, i', k)
      ensures !found ==> Scan(c, st, b, i', k, recheck) == Scan(c, old(st), b, i, k, recheck)
      ensures !found ==> |st.buckets[b]| - i' < old(|st.buckets[b]|) - i
    {
      hide Valid, Wf, Tends, Trims, Observe, Home, Alive, Dead, Lookup.Sweep, IsExpired, DeadBefore, FoundOk,
          Expired, LookAt;
      ghost var s0 := st;
      ChainWf(c, s0, b);
      VisitStays(c, s0, b, i, k, LookAt(c, s0, s.id, k, recheck));
      VisitLeaves(c, s0, b, i, k, LookAt(c, s0, s.id, k, recheck));
      prev', i', s' := prev, i, s;
      var gone;
      found, got, gone := Visit(b, prev, s, k, recheck, i);
      Buckets();
      if found {
        KeepsPlace(b, prev, i, s);
        return;
      }
      if !gone {
        prev', i' := s.chain, i + 1;
      }
      s' := Current(b, prev', i');
    }

    lemma KeepsPlace(b: nat, prev: Store?, i: nat, s: StoreType)
      ensures Valid() && Has(s) && Pos(b, prev, i) && i < |table.chains[b]| && s.chain == table.chains[b][i] ==>
        Walks(b, prev, i, s)
    {
      hide LinksFit, IsChain, NoDup;
    }

    /** Walks the bucket of key `k`, erasing expired elements on the way, up to the first match or to the end of the
        chain, where `prev` is its last node. */
    method Search(k: Key, recheck: bool)
      returns (hit: StoreType?, got: Content, b: nat, prev: Store?, ghost i: nat)
      requires Valid() && Wf(c, st)
      modifies this, repr
      ensures Valid() && repr == old(repr) && Within(nodes, old(nodes)) && Walks(b, prev, i, hit)
      ensures Sought(c, old(st), k, recheck) == if hit != null then Hit(st, hit.id, got) else Miss(st)
      ensures Wf(c, st) && b == BucketOf(c, st, k)
    {
      hide Valid, Wf, Tends, Trims, Home, DeadBefore, FoundOk, LookAt;
      b := BucketAt(k);
      prev, i := null, 0;
      got := Nothing;
      Buckets();
      DeadBeforeNone(c, st, b, k);
      hit := Current(b, prev, i);
      while hit != null
        invariant Valid() && repr == old(repr) && Within(nodes, old(nodes)) && Wf(c, st)
        invariant Walks(b, prev, i, hit) && b == Home(c, |st.buckets|, k)
        invariant DeadBefore(c, st, b, i, k)
        invariant Scan(c, st, b, i, k, recheck) == Sought(c, old(st), k, recheck)
        decreases |st.buckets[b]| - i
      {
        var found;
        found, got, prev, hit, i := Round(b, prev, hit, k, recheck, i);
        if found { return; }
      }
    }

    /** One round of the read-only walk, which asks a matching element for its content. */
    method Glance(n: StoreType, k: Key) returns (found: bool, got: Content)
      requires Valid() && Has(n) && Wf(c, st)
      modifies `held, `now, `tick, `st
      ensures Valid() && n.id in old(st).elems
      ensures st == if n.key == k then Observe(c, old(st)) else old(st)
      ensures n.key == old(st).elems[n.id].key && found == (n.key == k && !IsExpired(c, st, st.elems[n.id]))
      ensures found ==> got == Core(st.elems[n.id].slot)
    {
      hide Valid, Wf, Tends, Expired, Alive, Interfere;
      got := Nothing;
      At(n.id);
      if n.key != k { return false, got; }
      Look();
      At(n.id);
      found := !Expired(n);
      got := Core(n.slot);
    }

    /** The read-only walk. */
    method SearchPresent(k: Key) returns (hit: StoreType?, got: Content)
      requires Valid() && Wf(c, st)
      modifies `held, `now, `tick, `st
      ensures Valid() && (hit != null ==> Has(hit))
      ensures SoughtPresent(c, old(st), k) == if hit != null then Hit(st, hit.id, got) else Miss(st)
    {
      hide Valid, Wf, Tends, Trims, Observe, Home, Alive, Dead, IsExpired, DeadBefore, FoundOk;
      var b := BucketAt(k);
      var prev: Store? := null;
      ghost var i := 0;
      hit, got := null, Nothing;
      Buckets();
      DeadBeforeNone(c, st, b, k);
      var s := Current(b, prev, i);
      while s != null
        invariant Valid() && Wf(c, st) && Walks(b, prev, i, s) && b == Home(c, |st.buckets|, k)
        invariant DeadBefore(c, st, b, i, k)
        invariant PeekScan(c, st, b, i, k) == SoughtPresent(c, old(st), k)
        decreases |st.buckets[b]| - i
      {
        ghost var s0 := st;
        ChainWf(c, s0, b);
        var found, what := Glance(s, k);
        ExpiredIsDead(c, st, s.id);
        if found { return s, what; }
        DeadBeforeSkip(c, s0, st, b, i, k);
        prev, i := s.chain, i + 1;
        s := Current(b, prev, i);
      }
    }

    // ----- full maintenance and growth

    /** One round of the walk that erases the expired, unlocked elements. */
    method SweepRound(b: nat, prev: Store?, s: StoreType, ghost i: nat)
      returns (prev': Store?, s': StoreType?, ghost i': nat)
      requires Valid() && Wf(c, st) && Walks(b, prev, i, s)
      modifies this, repr
      ensures Valid() && repr == old(repr) && Within(nodes, old(nodes)) && Wf(c, st)
      ensures Walks(b, prev', i', s') && |st.buckets| == |old(st.buckets)|
      ensures |st.buckets[b]| - i' < old(|st.buckets[b]|) - i
      ensures Resize.EraseAllExpired(c, st, b, i') == Resize.EraseAllExpired(c, old(st), b, i)
    {
      hide Valid, Wf, Tends, Trims, Home, Lookup.Sweep;
      ChainWf(c, st, b);
      SweptBuckets(c, st, b, i, Lookup.Sweep(c, st, s.id));
      var _, gone := Sweep(b, prev, s, i);
      prev', i' := prev, i;
      if !gone {
        prev', i' := s.chain, i + 1;
      }
      Buckets();
      s' := Current(b, prev', i');
    }

    /** Erases the expired, unlocked elements of one bucket. */
    method BucketEraseAllExpired(b: nat)
      requires Valid() && Wf(c, st) && b < |st.buckets|
      modifies this, repr
      ensures Valid() && repr == old(repr) && Within(nodes, old(nodes)) && Wf(c, st)
      ensures |st.buckets| == |old(st.buckets)|
      ensures Resize.EraseAllExpired(c, st, b + 1, 0) == Resize.EraseAllExpired(c, old(st), b, 0)
    {
      hide Valid, Wf, Tends, Trims, Home, Lookup.Sweep;
      Buckets();
      var prev: Store? := null;
      ghost var i := 0;
      var s := Current(b, prev, i);
      while s != null
        invariant Valid() && repr == old(repr) && Within(nodes, old(nodes)) && Wf(c, st)
        invariant Walks(b, prev, i, s) && |st.buckets| == |old(st.buckets)|
        invariant Resize.EraseAllExpired(c, st, b, i) == Resize.EraseAllExpired(c, old(st), b, 0)
        decreases |st.buckets[b]| - i
      {
        prev, s, i := SweepRound(b, prev, s, i);
      }
    }

    method EraseAllExpired()
      requires Valid() && Wf(c, st)
      modifies this, repr
      ensures Valid() && repr == old(repr) && Within(nodes, old(nodes))
      ensures st == Resize.EraseAllExpired(c, old(st), 0, 0)
    {
      hide Valid, Wf, Tends, Trims, Home, Lookup.Sweep;
      Buckets();
      var b := 0;
      while b < table.heads.Length
        invariant Valid() && repr == old(repr) && Within(nodes, old(nodes)) && Wf(c, st)
        invariant b <= |st.buckets| == |old(st.buckets)| == table.heads.Length
        invariant Resize.EraseAllExpired(c, st, b, 0) == Resize.EraseAllExpired(c, old(st), 0, 0)
        decreases |old(st.buckets)| - b
      {
        BucketEraseAllExpired(b);
        Buckets();
        b := b + 1;
      }
    }

    lemma HashesAgree()
      ensures ChainsFit(nodes, st.buckets) && NodesFit(nodes, st.elems) ==>
        Agree(OwnerOf(), HashFn(), HashOf(c, st.elems), table.chains)
    {
      if ChainsFit(nodes, st.buckets) && NodesFit(nodes, st.elems) {
        hide NoDup, IsChain;
        forall b, i | 0 <= b < |table.chains| && 0 <= i < |table.chains[b]|
          ensures HashFn()(table.chains[b][i]) == HashOf(c, st.elems)(OwnerOf()(table.chains[b][i]))
        {
          assert table.chains[b][i] in table.chains[b];
        }
      }
    }

    /** The nodes of the table are relinked in a bigger vector. */
    method Rechain(m: nat)
      requires ChainsFit(nodes, st.buckets) && NodesFit(nodes, st.elems) && |st.buckets| <= m
      modifies table, table.home.Keys
      ensures ChainsFit(nodes, Rehashed(HashOf(c, st.elems), st.buckets, m))
      ensures table.home.Keys == old(table.home.Keys) && (table.heads == old(table.heads) || fresh(table.heads))
    {
      hide Homes, IsChain, NoDup, Rehashed;
      HashesAgree();
      MapRehashed(OwnerOf(), HashFn(), HashOf(c, st.elems), table.chains, m);
      table.Rehash(m);
    }

    /** Resizes the bucket vector and rehashes the original buckets one after the other. */
    method Rehash(m: nat)
      requires Valid() && Wf(c, st) && |st.buckets| <= m
      modifies this, repr
      ensures Valid() && fresh(repr - old(repr)) && nodes == old(nodes)
      ensures st == Resize.Rehash(c, old(st), m)
    {
      hide ChainsFit, LinksFit, NodesFit, Wf, HashOf, Rehashed;
      PartsApart();
      OwnsParts();
      Rechain(m);
      st := Resize.Rehash(c, st, m);
      repr := repr + {table.heads};
    }

    method MaybeRehash()
      requires Valid() && Wf(c, st) && lf > 0.0 && c.wordSize > 0
      modifies this, repr
      ensures Valid() && fresh(repr - old(repr)) && Within(nodes, old(nodes))
      ensures old(st).lf > 0.0 && st == Resize.MaybeRehash(c, old(st))
    {
      hide Valid, Wf, Tends, Trims, Resize.EraseAllExpired, Resize.Rehash, Ceil;
      Buckets();
      Fields();
      if table.heads.Length >= TargetBuckets(size, lf, c.maxBuckets) { return; }
      EraseAllExpired();
      LoadFactorKept(c, old(st), st);
      Buckets();
      Fields();
      if table.heads.Length >= TargetBuckets(size, lf, c.maxBuckets) { return; }
      var m := NextBuckets(table.heads.Length, c.wordSize, c.maxBuckets);
      if table.heads.Length >= m || !c.canGrow(tick) { return; }
      Rehash(m);
    }

    // ----- creation

    method EnterChain(n: StoreType, b: nat, prev: Store?)
      requires ChainsFit(nodes, st.buckets) && AtEnd(b, prev) && n.id !in nodes
      requires n.chain !in table.home && n.chain.successor == null
      requires n.chain.owner == n.id && n.chain.hash == c.hash(n.key)
      modifies table, table.heads, table.home.Keys
      ensures table.heads == old(table.heads) && table.home.Keys == old(table.home.Keys) + {n.chain}
      ensures |st.buckets| == table.heads.Length
      ensures ChainsFit(nodes[n.id := n], st.buckets[b := st.buckets[b] + [n.id]])
    {
      hide NoDup, Homes, IsChain;
      MapConcat(OwnerOf(), table.chains[b], [n.chain]);
      MapUpdate(OwnerOf(), table.chains, b, table.chains[b] + [n.chain]);
      assert Map(OwnerOf(), [n.chain]) == [n.id];
      table.Append(b, prev, n.chain);
    }

    lemma NewLink(n: StoreType)
      requires n.id !in nodes
      ensures LinksFit(nodes, st.queue) && n.link.owner == n.id && n.link.IsLoose() && n.link !in queue.nodes ==>
        LinksFit(nodes[n.id := n], st.queue)
    {
      hide Ring, NoDup;
    }

    lemma NewNode(n: StoreType, e: Elem)
      requires n.id !in nodes
      ensures NodesFit(nodes, st.elems) && n.AsElem() == e ==> NodesFit(nodes[n.id := n], st.elems[n.id := e])
      ensures nodes[n.id := n].Values == nodes.Values + {n} && Links(nodes[n.id := n]) == Links(nodes) + {n.link}
    {
      assert forall id :: id in nodes ==> nodes[n.id := n][id] == nodes[id];
      assert nodes[n.id := n][n.id] == n;
    }

    lemma NewNumber()
      ensures Valid() && Wf(c, st) ==> nextId == st.nextId && nextId !in nodes && nextId !in st.elems
    {
      hide NoDup, Home, ChainsFit, LinksFit, Linked, Coupled, Accounted;
    }

    /** The new element enters its chain; it is on no list yet. */
    method Enter(n: StoreType, b: nat, prev: Store?)
      requires ChainsFit(nodes, st.buckets) && LinksFit(nodes, st.queue) && NodesFit(nodes, st.elems)
      requires AtEnd(b, prev) && n.id !in nodes && n !in nodes.Values
      requires n.chain !in table.home && n.chain.successor == null
      requires n.chain.owner == n.id && n.chain.hash == c.hash(n.key)
      requires n.link.owner == n.id && n.link.IsLoose() && n.link !in queue.nodes
      modifies table, table.heads, table.home.Keys
      ensures table.heads == old(table.heads) && table.home.Keys == old(table.home.Keys) + {n.chain}
      ensures |st.buckets| == table.heads.Length
      ensures ChainsFit(nodes[n.id := n], st.buckets[b := st.buckets[b] + [n.id]])
      ensures LinksFit(nodes[n.id := n], st.queue) && NodesFit(nodes[n.id := n], st.elems[n.id := n.AsElem()])
      ensures n.AsElem() == old(n.AsElem())
    {
      hide ChainsFit, LinksFit, NodesFit;
      PartsApart();
      NewLink(n);
      NewNode(n, n.AsElem());
      ghost var links: set<object>, chains: set<object> := {n.link, n}, table.home.Keys + {table.heads};
      assert links !! chains;
      EnterChain(n, b, prev);
    }

    /** The new element, which has entered its chain, becomes known. */
    method Register(n: StoreType, k: Key, x: Slot, at: int)
      requires Owns() && FieldsFit() && this !in repr && {n, n.chain, n.link} <= repr
      requires n.id == st.nextId && |st.buckets| > 0 && n.AsElem() == NewElem(c, k, x, at)
      requires NodesFit(nodes[n.id := n], st.elems[n.id := n.AsElem()])
      requires ChainsFit(nodes[n.id := n], Operations.Attach(c, st, k, x, at).buckets)
      requires LinksFit(nodes[n.id := n], st.queue)
      modifies `nodes, `nextId, `st
      ensures Valid() && nodes == old(nodes)[n.id := n]
      ensures st == Operations.Attach(c, old(st), k, x, at)
    {
      hide ChainsFit, LinksFit, NodesFit;
      nextId := nextId + 1;
      nodes := nodes[n.id := n];
      st := Operations.Attach(c, st, k, x, at);
      WorldFrame(st);
    }

    method Allocate(k: Key, e: Elem) returns (n: StoreType)
      requires Valid() && Wf(c, st) && e.key == k
      modifies `repr
      ensures Valid() && fresh(n) && fresh(n.chain) && fresh(n.link) && repr == old(repr) + {n, n.chain, n.link}
      ensures n.id == nextId == st.nextId && n.id !in nodes && n.AsElem() == e
      ensures n.chain.successor == null && n.chain.owner == n.id && n.chain.hash == c.hash(k)
      ensures n.link.owner == n.id && n.link.IsLoose()
      ensures n !in nodes.Values && n.chain !in table.home && n.link !in queue.nodes
    {
      hide ChainsFit, LinksFit, NodesFit, Wf;
      NewNumber();
      n := new StoreType(nextId, c.hash(k), e);
      repr := repr + {n, n.chain, n.link};
      WorldFrame(st);
    }

    /** A new, locked element is linked behind the last one of its chain. */
    method Attach(k: Key, x: Slot, at: int, b: nat, prev: Store?) returns (n: StoreType)
      requires Valid() && Wf(c, st) && AtEnd(b, prev) && b == BucketOf(c, st, k)
      modifies this, repr
      ensures Valid() && fresh(repr - old(repr)) && Has(n) && n.id == old(st).nextId
      ensures |old(st).buckets| > 0 && st == Operations.Attach(c, old(st), k, x, at)
      ensures n.id in st.elems && st.queue == old(st).queue
    {
      hide ChainsFit, LinksFit, NodesFit, Wf;
      n := Allocate(k, NewElem(c, k, x, at));
      Enter(n, b, prev);
      Register(n, k, x, at);
    }

    method EnterQueue(n: StoreType)
      requires LinksFit(nodes, st.queue) && Has(n) && n.id !in st.queue.All()
      modifies queue, queue.nodes, n.link
      ensures LinksFit(nodes, st.queue.Create(n.id)) && queue.nodes <= old(queue.nodes) + {n.link}
    {
      hide BaseExpireQueue.Valid, Queue.Create, Queue.All, MapQueue;
      LinksApart(nodes, queue.q, n);
      MapMembers(queue.q.All(), n.link);
      HitMoves(queue.q, n.link);
      MapCreate(LinkOwner(), queue.q, n.link);
      queue.OnCreate(n.link);
      Relinked(n);
    }

    /** The new element enters between the hot and the cold half. */
    method QueueOnCreate(n: StoreType)
      requires Valid() && Has(n) && n.id !in st.queue.All()
      modifies queue, queue.nodes, n.link, `st
      ensures Valid() && repr == old(repr) && nodes == old(nodes)
      ensures st == old(st).(queue := old(st.queue).Create(n.id))
    {
      hide ChainsFit, NodesFit, LinksFit, Owns, Queue.Create, Queue.All;
      OwnsParts();
      InLinks(n);
      EnterQueue(n);
      st := st.(queue := st.queue.Create(n.id));
      QueueFrame();
    }

    /** Counts the new element and, without a queue that could evict it, weakens it. */
    method CountIn(n: StoreType)
      requires Valid() && Has(n) && n.id !in st.queue.All()
      modifies this, repr
      ensures Valid() && repr == old(repr) && nodes == old(nodes) && n.id in old(st).elems
      ensures st == Count(c, old(st), n.id)
    {
      hide Valid, Queue.Create, Queue.All;
      At(n.id);
      InLinks(n);
      OwnsParts();
      CountOne();
      if c.queued {
        QueueOnCreate(n);
      } else {
        At(n.id);
        SetSlot(n, Weakened(n.slot));
      }
    }

    method CountOne()
      requires Valid()
      modifies `size, `st
      ensures Valid() && st == old(st).(size := old(st).size + 1)
    {
      hide ChainsFit, LinksFit, NodesFit, Owns;
      OwnsParts();
      size := size + 1;
      st := st.(size := st.size + 1);
      WorldFrame(st);
    }

    /** What happens around the cache: pointers pinned or given to holders, threads that wait. */
    method Settle(pinned: set<Ptr>, held: set<Ptr>, waiters: map<Tid, Wait>)
      requires Valid()
      modifies `pinned, `held, `waiters, `st
      ensures Valid() && st == old(st).(pinned := pinned, held := held, waiters := waiters)
    {
      hide ChainsFit, LinksFit, NodesFit, Owns;
      OwnsParts();
      this.pinned, this.held, this.waiters := pinned, held, waiters;
      st := st.(pinned := pinned, held := held, waiters := waiters);
      WorldFrame(st);
    }

    /** The create function has run: a new pointer, held by the section unless it is late, or a new future. */
    method Make(made: Made, late: bool)
      requires Valid()
      modifies `born, `pinned, `futs, `st
      ensures Valid() && st == Operations.Invent(old(st), made, late)
    {
      hide ChainsFit, LinksFit, NodesFit, Owns;
      OwnsParts();
      match made {
        case Throws =>
        case Ready(v) =>
          born := born + {v};
          pinned := if late then pinned else pinned + {v};
        case Promise(f) =>
          futs := futs[f := None];
      }
      st := Operations.Invent(st, made, late);
      WorldFrame(st);
    }

    /** Can the create function have yielded this? */
    predicate Acceptable(made: Made)
      requires Valid()
      reads this, table, queue, repr
      ensures Acceptable(made) <==> Admissible(c, st, made)
    {
      hide ChainsFit, LinksFit, NodesFit, IsAlive, Alive;
      match made
      case Throws => true
      case Ready(v) => !c.async && v != Null && (v in born ==> IsAlive(v))
      case Promise(f) => c.async && f !in futs
    }

    // ----- the critical sections

    /** A hit: the element is locked and its pointee pinned while the decorators run. */
    method Serve(n: StoreType)
      requires Valid() && Has(n) && Wf(c, st)
      modifies this, repr
      ensures Valid() && repr == old(repr) && n.id in old(st).elems && st == Operations.Serve(c, old(st), n.id)
    {
      hide Valid, Wf, Tends, Maintenance.OnHit;
      At(n.id);
      InLinks(n);
      OwnsNodes();
      Fields();
      var got, before := Core(n.slot), pinned;
      Lock(n, 1);
      Settle(pinned + Pins(got), held, waiters);
      ghost var s1 := st;
      LockWf(c, old(st), n.id, 1, s1);
      At(n.id);
      OnHit(n);
      ServedStays(c, s1, st, n.id);
      At(n.id);
      InLinks(n);
      OwnsNodes();
      Fields();
      Lock(n, -1);
      Settle(before, held + Pins(got), waiters);
    }

    /** Gives the caller the pointer, or the future to wait for once the mutex is released. */
    method Hand(t: Tid, got: Content) returns (answer: Answer)
      requires Valid()
      modifies `pinned, `held, `waiters, `st
      ensures Valid() && (st, answer) == Deliver(old(st), t, got)
    {
      hide Valid;
      Fields();
      if got.Future? {
        Settle(pinned, held, waiters[t := Join(got.f)]);
      }
      return Hands(got);
    }

    /** The queue cleans up behind the new element, and the other decorators follow. */
    method OnCreate(n: StoreType)
      requires Valid() && Has(n) && n.id !in st.queue.All() && n.id in st.elems && Wf(c, Count(c, st, n.id))
      modifies this, repr
      ensures Valid() && repr == old(repr) && Within(nodes, old(nodes))
      ensures st == AfterInsert(c, Count(c, old(st), n.id))
    {
      hide Valid, Wf, Tends, Count, SameAccess;
      hide Maintenance.Cleanup, Maintenance.AccessOnCreate, Maintenance.ApplyMaxSize;
      CountIn(n);
      if c.queued { Cleanup(); }
      AccessOnCreate();
      ApplyMaxSize();
    }

    /** Links a new element and lets the decorators react to it. */
    method Append(k: Key, x: Slot, at: int, b: nat, prev: Store?) returns (n: StoreType)
      requires Valid() && Wf(c, st) && !IsWeak(x) && AtEnd(b, prev) && b == BucketOf(c, st, k)
      modifies this, repr
      ensures Valid() && fresh(repr - old(repr)) && n.id == old(st).nextId && (n.id in st.elems ==> Has(n))
      ensures st == AfterInsert(c, Insert(c, old(st), k, x, at))
    {
      hide Valid, Wf, Tends, AfterInsert, Operations.Attach, Count, Operations.Inserted;
      InsertLinked(c, st, st.nextId);
      ghost var s := Insert(c, st, k, x, at);
      n := Attach(k, x, at, b, prev);
      assert s == Count(c, st, n.id);
      ghost var ns := nodes;
      OnCreate(n);
      StillHas(ns, n);
    }

    /** What a lookup does that misses: it has walked to the last node `prev` of chain `b`. */
    method Create(k: Key, made: Made, at: int, b: nat, prev: Store?) returns (n: StoreType)
      requires Valid() && Wf(c, st) && !made.Throws? && AtEnd(b, prev) && b == BucketOf(c, st, k)
      modifies this, repr
      ensures Valid() && fresh(repr - old(repr)) && Has(n) && n.id == old(st).nextId
      ensures st == Operations.Create(c, old(st), k, made, at)
    {
      hide Valid, Wf, Tends, AfterInsert, Insert;
      Fields();
      var late := c.maxAge.Some? && now > at + c.maxAge.value;
      WfFrame(c, st, Invent(st, made, late));
      Make(made, late);
      n := Append(k, FirstSlot(made), at, b, prev);
      assert st == Operations.Create(c, old(st), k, made, at);
    }

    /** The end of a creation that is over in the same critical section. */
    method FinishNow(n: StoreType, given: set<Ptr>)
      requires Valid() && Has(n) && Wf(c, st) && lf > 0.0 && c.wordSize > 0 && n.useCount > 0
      modifies this, repr
      ensures Valid() && fresh(repr - old(repr))
      ensures old(st).lf > 0.0 && n.id in old(st).elems && old(st).elems[n.id].useCount > 0
      ensures st == Operations.FinishNow(c, old(st), n.id, given)
    {
      hide Valid, Wf, Tends, Trims, Resize.MaybeRehash;
      At(n.id);
      Fields();
      ghost var ns := nodes;
      MaybeRehash();
      ServedStays(c, old(st), st, n.id);
      StillHas(ns, n);
      At(n.id);
      InLinks(n);
      OwnsNodes();
      Lock(n, -1);
      Fields();
      Settle({}, held + given, waiters);
    }

    /** A creation from the insertion of the element to the moment at which the mutex is released. */
    method Land(t: Tid, k: Key, got: Made, at: int, b: nat, prev: Store?) returns (answer: Answer)
      requires Valid() && Operations.Valid(c) && Wf(c, st) && st.lf > 0.0 && !got.Throws?
      requires AtEnd(b, prev) && b == BucketOf(c, st, k)
      modifies this, repr
      ensures Valid() && fresh(repr - old(repr))
      ensures Reply(st, answer, true) == Landed(c, old(st), t, k, got, at)
    {
      hide Valid, Wf, Tends, Operations.Create, Operations.FinishNow;
      Fields();
      var late := c.maxAge.Some? && now > at + c.maxAge.value;
      Sections.CreateFields(c, st, k, got, at);
      var n := Create(k, got, at, b, prev);
      At(n.id);
      Fields();
      if late {
        FinishNow(n, {});
        return Returned(Null);
      }
      match got {
        case Ready(v) =>
          FinishNow(n, {v});
          return Returned(v);
        case Promise(f) =>
          Settle(pinned, held, waiters[t := Creator(f, n.id)]);
          return Waiting(f);
      }
    }

    /** `get`, up to the moment at which the mutex is released for the first time. */
    method LookupOrCreate(t: Tid, k: Key, made: Made) returns (answer: Answer, created: bool)
      requires Valid() && Operations.Valid(c) && Inv(c, st) && t !in waiters
      modifies this, repr
      ensures Valid() && fresh(repr - old(repr)) && t !in old(st).waiters
      ensures Reply(st, answer, created) == Operations.Get(c, old(st), t, k, made)
    {
      hide Valid, Wf, Tends, Trims, Known, Locks, Unique, Observe, Scan, Dead, DeadBefore, Home;
      hide Operations.Serve, Landed, Admissible;
      Fields();
      var hit, got, b, prev, i := Search(k, true);
      if hit != null {
        Serve(hit);
        answer := Hand(t, got);
        return answer, false;
      }
      GetLands(c, old(st), t, k, made);
      Look();
      Fields();
      var at := now;
      Look();
      if made.Throws? || !Acceptable(made) { return Threw, false; }
      answer := Land(t, k, made, at, b, prev);
      return answer, true;
    }

    method LookupIfPresent(t: Tid, k: Key) returns (answer: Answer)
      requires Valid() && Wf(c, st) && t !in waiters
      modifies `pinned, `held, `now, `tick, `waiters, `st
      ensures Valid() && t !in old(st).waiters && Reply(st, answer, false) == Operations.Peek(c, old(st), t, k)
    {
      hide Valid, Wf, Tends, Trims, Observe, PeekScan, FoundOk;
      Fields();
      var hit, got := SearchPresent(k);
      if hit == null { return Absent; }
      Fields();
      Settle(pinned, held + Pins(got), waiters);
      answer := Hand(t, got);
    }

    /** `expire`: the first unexpired element of the key is expired and, unless it is locked, unlinked where the walk
        found it. */
    method Expire(k: Key) returns (found: bool)
      requires Valid() && Inv(c, st)
      modifies this, repr
      ensures Valid() && repr == old(repr) && Forgotten(st, found) == Operations.Forget(c, old(st), k)
    {
      hide Valid, Wf, Tends, Trims, Known, Unique, Locks, Scan, Home, Dead, DeadBefore;
      var hit, _, b, prev, i := Search(k, false);
      if hit == null { return false; }
      LocksTends(c, old(st), st);
      At(hit.id);
      InLinks(hit);
      OwnsNodes();
      Steps.ForgetGuard(c, st, hit.id);
      StrikeWf(c, st, hit.id);
      SetSlot(hit, ElementState.Expired(hit.slot));
      At(hit.id);
      if hit.useCount == 0 {
        EraseAt(b, prev, hit, i);
      }
      return true;
    }

    /** The creator comes back with the mutex, installs the result and lets go of the element. */
    method Resolve(t: Tid) returns (answer: Answer)
      requires Valid() && Operations.Valid(c) && Inv(c, st)
      requires t in waiters && waiters[t].Creator? && Settled(st, waiters[t].fut)
      modifies this, repr
      ensures Valid() && fresh(repr - old(repr))
      ensures t in old(st).waiters && old(st).waiters[t].Creator? && Settled(old(st), old(st).waiters[t].fut)
      ensures Reply(st, answer, false) == Operations.Finish(c, old(st), t)
    {
      hide Valid, Wf, Tends, Trims, Known, Unique, Resize.MaybeRehash;
      Fields();
      var Creator(f, id) := waiters[t];
      var o := futs[f].value;
      assert Creates(st, t, id);
      InstallWf(c, st, id, o);
      At(id);
      ghost var ns := nodes;
      var n := nodes[id];
      InLinks(n);
      OwnsNodes();
      SetSlot(n, Resolved(n.slot, o));
      Fields();
      Settle(ValueOf(o), held, waiters);
      ghost var s1 := st;
      TendsRefl(c, s1);
      Fields();
      if o.Done? { MaybeRehash(); }
      ServedStays(c, s1, st, id);
      StillHas(ns, n);
      At(id);
      InLinks(n);
      OwnsNodes();
      Lock(n, -1);
      Fields();
      Settle({}, held + ValueOf(o), waiters - {t});
      return AnswerOf(o);
    }

    method MaxLoadFactor(factor: real) returns (ok: bool)
      requires Valid() && Operations.Valid(c) && Inv(c, st)
      modifies this, repr
      ensures Valid() && fresh(repr - old(repr)) && ok == (factor > 0.0)
      ensures st == Operations.Tune(c, old(st), factor)
    {
      hide Valid, Wf, Tends, Trims, Known, Unique, Locks, Resize.MaybeRehash;
      if factor <= 0.0 { return false; }
      SetFactor(factor);
      WfFrame(c, old(st), st);
      Fields();
      MaybeRehash();
      return true;
    }

    method SetFactor(factor: real)
      requires Valid()
      modifies `lf, `st
      ensures Valid() && st == old(st).(lf := factor)
    {
      hide ChainsFit, LinksFit, NodesFit, Owns;
      OwnsParts();
      lf := factor;
      st := st.(lf := factor);
      WorldFrame(st);
    }

    // ----- destruction

    /** Empties one bucket from its head. */
    method EraseAll(b: nat)
      requires Valid() && Emptying(c, st, b) && b < |st.buckets|
      modifies this, repr
      ensures Valid() && repr == old(repr) && Emptying(c, st, b + 1) && |st.buckets| == |old(st.buckets)|
      ensures DestroyFrom(c, st, b + 1) == DestroyFrom(c, old(st), b)
    {
      hide Valid, Wf, Emptying, Discard, DestroyFrom;
      Buckets();
      var s := Current(b, null, 0);
      while s != null
        invariant Valid() && repr == old(repr) && Emptying(c, st, b) && |st.buckets| == |old(st.buckets)|
        invariant Walks(b, null, 0, s) && DestroyFrom(c, st, b) == DestroyFrom(c, old(st), b)
        decreases |st.buckets[b]|
      {
        DestroyHead(c, st, b);
        EmptyingWf(b);
        EraseAt(b, null, s, 0);
        Buckets();
        s := Current(b, null, 0);
      }
      DestroyNext(c, st, b);
    }

    lemma EmptyingWf(b: nat)
      ensures Emptying(c, st, b) ==> Wf(c, st)
    {
    }

    /** The destructor: empties every bucket. */
    method Destroy()
      requires Valid() && Wf(c, st) && Unlocked(st)
      modifies this, repr
      ensures Valid() && repr == old(repr) && Emptying(c, old(st), 0) && st == DestroyFrom(c, old(st), 0)
    {
      assert Emptying(c, st, 0);
      hide Valid, Wf, Emptying, Unlocked, DestroyFrom;
      Buckets();
      var b := 0;
      while b < table.heads.Length
        invariant Valid() && repr == old(repr) && Emptying(c, st, b)
        invariant b <= |st.buckets| == |old(st.buckets)| == table.heads.Length
        invariant DestroyFrom(c, st, b) == DestroyFrom(c, old(st), 0)
        decreases |old(st.buckets)| - b
      {
        EraseAll(b);
        Buckets();
        b := b + 1;
      }
      DestroyNext(c, st, b);
    }

    /** Memory safety: the pointers stored in an element lead to elements that exist, or to the heads of the lists. No
        operation leaves a pointer to an element that has been destroyed. */
    lemma NoDangling(id: Id)
      requires Valid() && id in nodes
      ensures var p := nodes[id].chain.successor; p != null ==> p.owner in nodes && nodes[p.owner].chain == p
      ensures var l := nodes[id].link;
        l.IsLoose() || (l.pred.To? && Leads(l.pred.node) && l.succ.To? && Leads(l.succ.node))
    {
      hide Table.Valid, BaseExpireQueue.Valid;
      table.Successor(nodes[id].chain);
      if nodes[id].link in queue.q.All() {
        queue.InNodes();
        queue.Neighbours(nodes[id].link);
      }
    }

    ghost predicate Leads(l: ExpireLink)
      reads this
    {
      l == queue.hotQ || l == queue.coldQ || (l.owner in nodes && nodes[l.owner].link == l)
    }
  }
}
