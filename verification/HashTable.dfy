/** The bucket vector in memory: singly linked chains of elements, walked by a pointer to the pointer that leads to the
    current element, and rehashed in place. */
module HashTable {
  import opened Sequences
  import opened HashChains

  class Store {
    const hash: nat
    /** The number of the element that this node is part of. */
    const owner: nat
    var successor: Store?

    constructor (hash: nat, owner: nat)
      ensures this.hash == hash && this.owner == owner && successor == null
    {
      this.hash, this.owner := hash, owner;
      successor := null;
    }
  }

  /** The node at position `i` of a chain; the null pointer past its end. */
  ghost function Nth(c: seq<Store>, i: nat): Store? {
    if i < |c| then c[i] else null
  }

  /** The chain that starts at `head` consists of the elements `c`. */
  ghost predicate IsChain(head: Store?, c: seq<Store>)
    reads c
  {
    && NoDup(c)
    && head == Nth(c, 0)
    && forall i :: 0 <= i < |c| ==> c[i].successor == Nth(c, i + 1)
  }

  /** Cutting one node out of a chain: the pointer that led to it now leads to its successor. */
  lemma ChainCut(head: Store?, c: seq<Store>, i: nat)
    requires i < |c| && NoDup(c)
    requires head == if i == 0 then Nth(c, 1) else Nth(c, 0)
    requires forall j :: 0 <= j < |c| && j != i && j + 1 != i ==> c[j].successor == Nth(c, j + 1)
    requires i > 0 ==> c[i - 1].successor == Nth(c, i + 1)
    ensures IsChain(head, Remove(c, c[i]))
  {
    RemoveAt(c, i);
    RemoveNoDup(c, c[i]);
    hide NoDup, Remove;
    var d := c[..i] + c[i + 1..];
    NthGap(c, i, 0);
    forall j | 0 <= j < |d| ensures d[j].successor == Nth(d, j + 1) {
      NthGap(c, i, j);
      NthGap(c, i, j + 1);
      hide Nth;
    }
  }

  lemma NthGap(c: seq<Store>, i: nat, j: nat)
    requires i < |c|
    ensures Nth(c[..i] + c[i + 1..], j) == Nth(c, if j < i then j else j + 1)
    ensures j < |c| - 1 ==> (c[..i] + c[i + 1..])[j] == if j < i then c[j] else c[j + 1]
  {
  }

  lemma ChainRemove(head: Store?, c: seq<Store>, i: nat)
    requires i < |c| && IsChain(head, c)
    ensures Remove(c, c[i]) == c[..i] + c[i + 1..]
  {
    RemoveAt(c, i);
  }

  lemma ChainPush(head: Store, c: seq<Store>)
    requires NoDup(c) && head !in c && head.successor == Nth(c, 0)
    requires forall i :: 0 <= i < |c| ==> c[i].successor == Nth(c, i + 1)
    ensures IsChain(head, [head] + c)
  {
    assert NoDup([head]);
    NoDupConcat([head], c);
    hide NoDup;
  }

  lemma ChainAppend(head: Store?, c: seq<Store>, s: Store)
    requires NoDup(c) && s !in c && s.successor == null
    requires head == if c == [] then s else c[0]
    requires forall j :: 0 <= j < |c| - 1 ==> c[j].successor == c[j + 1]
    requires c != [] ==> c[|c| - 1].successor == s
    ensures IsChain(head, c + [s])
  {
    assert NoDup([s]);
    NoDupConcat(c, [s]);
    hide NoDup;
  }

  /** `home` tells for every element the one chain on which it stands. */
  ghost predicate Homes(chains: seq<seq<Store>>, home: map<Store, nat>) {
    && (forall b, x {:trigger x in chains[b]} {:trigger x in home, chains[b]} :: 0 <= b < |chains| && x in chains[b] ==>
          x in home && home[x] == b)
    && (forall x :: x in home ==> home[x] < |chains| && x in chains[home[x]])
  }

  lemma HomesCut(chains: seq<seq<Store>>, home: map<Store, nat>, b: nat, s: Store)
    requires Homes(chains, home) && b < |chains| && s in chains[b] && NoDup(chains[b])
    ensures Homes(chains[b := Remove(chains[b], s)], home - {s})
  {
    RemoveNoDup(chains[b], s);
    hide Remove, NoDup;
  }

  lemma HomesApart(chains: seq<seq<Store>>, home: map<Store, nat>, b: nat)
    requires Homes(chains, home) && b < |chains|
    ensures forall x :: x in chains[b] ==> x in home
    ensures forall d, x {:trigger x in chains[d]} :: 0 <= d < |chains| && d != b && x in chains[d] ==> x !in chains[b]
  {
  }

  lemma HomesOutside(chains: seq<seq<Store>>, home: map<Store, nat>, s: Store)
    requires Homes(chains, home) && s !in home
    ensures forall d :: 0 <= d < |chains| ==> s !in chains[d]
  {
  }

  lemma HomesPush(chains: seq<seq<Store>>, home: map<Store, nat>, b: nat, s: Store)
    requires Homes(chains, home) && b < |chains| && s !in home
    ensures Homes(chains[b := [s] + chains[b]], home[s := b])
    ensures Homes(chains[b := chains[b] + [s]], home[s := b])
  {
  }

  /** The hash of an element, as the rehash uses it. */
  function HashFn(): Store -> nat {
    (x: Store) => x.hash
  }

  class Table {
    var heads: array<Store?>
    /** The chains: the value that this memory represents. */
    ghost var chains: seq<seq<Store>>

    /** The chain on which each element stands. */
    ghost var home: map<Store, nat>

    ghost predicate Valid()
      reads this, heads, home.Keys
    {
      && heads.Length == |chains| > 0
      && Homes(chains, home)
      && forall b :: 0 <= b < |chains| ==> IsChain(heads[b], chains[b])
    }

    /** The successor pointer of a linked node leads to a linked node or nowhere. */
    lemma Successor(s: Store)
      requires Valid() && s in home
      ensures s.successor == null || s.successor in home
    {
      hide NoDup;
      var b := home[s];
      assert IsChain(heads[b], chains[b]);
      var i :| 0 <= i < |chains[b]| && chains[b][i] == s;
      assert i + 1 < |chains[b]| ==> chains[b][i + 1] in chains[b];
    }

    constructor (n: nat)
      requires n > 0
      ensures Valid() && heads.Length == n && home == map[] && chains == seq(n, _ => []) && fresh(heads)
    {
      heads := new Store?[n](_ => null);
      chains := seq(n, _ => []);
      home := map[];
    }

    /** The pointer assignment that unlinks a node. */
    method CutHead(b: nat, prev: Store?, s: Store, ghost i: nat)
      requires Valid() && b < heads.Length && i < |chains[b]| && s == chains[b][i]
      requires prev == if i == 0 then null else chains[b][i - 1]
      modifies heads, home.Keys
      ensures IsChain(heads[b], Remove(chains[b], s))
      ensures forall d :: 0 <= d < |chains| && d != b ==> IsChain(heads[d], chains[d])
      ensures s.successor == old(s.successor)
      ensures Homes(chains[b := Remove(chains[b], s)], home - {s})
    {
      hide Homes;
      HomesApart(chains, home, b);
      HomesCut(chains, home, b, s) by { assert IsChain(heads[b], chains[b]); }
      ghost var c := chains[b];
      assert IsChain(heads[b], c);
      if prev == null {
        heads[b] := s.successor;
      } else {
        assert prev in c;
        prev.successor := s.successor;
      }
      ChainCut(heads[b], c, i);
      forall d | 0 <= d < |chains| && d != b ensures IsChain(heads[d], chains[d]) {
        assert old(IsChain(heads[d], chains[d]));
        assert forall x :: x in chains[d] ==> x !in c;
      }
    }

    /** Unlinks the node at position `i` of chain `b`; `prev` is its predecessor, null standing for the bucket itself.
        */
    method Cut(b: nat, prev: Store?, s: Store, ghost i: nat)
      requires Valid() && b < heads.Length && i < |chains[b]| && s == chains[b][i]
      requires prev == if i == 0 then null else chains[b][i - 1]
      modifies this, heads, home.Keys
      ensures Valid() && heads == old(heads) && home == old(home) - {s}
      ensures chains == old(chains)[b := Remove(old(chains)[b], s)]
      ensures s.successor == old(s.successor)
    {
      hide NoDup, Remove, Homes, IsChain;
      CutHead(b, prev, s, i);
      ghost var cs := chains[b := Remove(chains[b], s)];
      assert forall d :: 0 <= d < |cs| ==> IsChain(heads[d], cs[d]);
      chains := cs;
      home := home - {s};
    }

    /** Links a node that is on no chain in front of chain `b`. */
    method Push(b: nat, s: Store)
      requires Valid() && b < heads.Length && s !in home
      modifies this, heads, s
      ensures Valid() && heads == old(heads) && home == old(home)[s := b]
      ensures chains == old(chains)[b := [s] + old(chains)[b]]
    {
      hide NoDup, Homes, IsChain;
      PushHead(b, s);
      HomesPush(chains, home, b, s);
      ghost var cs := chains[b := [s] + chains[b]];
      assert forall d :: 0 <= d < |cs| ==> IsChain(heads[d], cs[d]);
      chains := cs;
      home := home[s := b];
    }

    /** The pointer assignments that link a node in front of a chain. */
    method PushHead(b: nat, s: Store)
      requires Valid() && b < heads.Length && s !in home
      modifies heads, s
      ensures IsChain(heads[b], [s] + chains[b])
      ensures forall d :: 0 <= d < |chains| && d != b ==> IsChain(heads[d], chains[d])
    {
      hide Homes;
      HomesApart(chains, home, b);
      HomesOutside(chains, home, s);
      assert IsChain(heads[b], chains[b]);
      s.successor := heads[b];
      heads[b] := s;
      ChainPush(s, chains[b]);
      forall d | 0 <= d < |chains| && d != b ensures IsChain(heads[d], chains[d]) {
        assert old(IsChain(heads[d], chains[d]));
        assert forall x :: x in chains[d] ==> x != s;
      }
    }

    /** Links a node that is on no chain after the last node `prev` of chain `b`. */
    method Append(b: nat, prev: Store?, s: Store)
      requires Valid() && b < heads.Length && s !in home && s.successor == null
      requires prev == if chains[b] == [] then null else chains[b][|chains[b]| - 1]
      modifies this, heads, home.Keys
      ensures Valid() && heads == old(heads) && home == old(home)[s := b]
      ensures chains == old(chains)[b := old(chains)[b] + [s]]
    {
      hide NoDup, Homes, IsChain;
      AppendTail(b, prev, s);
      HomesPush(chains, home, b, s);
      ghost var cs := chains[b := chains[b] + [s]];
      assert forall d :: 0 <= d < |cs| ==> IsChain(heads[d], cs[d]);
      chains := cs;
      home := home[s := b];
    }

    method AppendTail(b: nat, prev: Store?, s: Store)
      requires Valid() && b < heads.Length && s !in home && s.successor == null
      requires prev == if chains[b] == [] then null else chains[b][|chains[b]| - 1]
      modifies heads, home.Keys
      ensures IsChain(heads[b], chains[b] + [s])
      ensures forall d :: 0 <= d < |chains| && d != b ==> IsChain(heads[d], chains[d])
    {
      hide Homes;
      HomesApart(chains, home, b);
      HomesOutside(chains, home, s);
      ghost var c := chains[b];
      assert IsChain(heads[b], c);
      if prev == null {
        heads[b] := s;
      } else {
        assert prev in c;
        prev.successor := s;
      }
      ChainAppend(heads[b], c, s);
      forall d | 0 <= d < |chains| && d != b ensures IsChain(heads[d], chains[d]) {
        assert old(IsChain(heads[d], chains[d]));
        assert forall x :: x in chains[d] ==> x !in c;
      }
    }

    /** What the pointer to the current element leads to. */
    method Load(b: nat, prev: Store?, ghost i: nat) returns (s: Store?)
      requires Valid() && b < heads.Length && i <= |chains[b]|
      requires prev == if i == 0 then null else chains[b][i - 1]
      ensures s == Nth(chains[b], i)
    {
      hide Homes, NoDup;
      assert IsChain(heads[b], chains[b]);
      s := if prev == null then heads[b] else prev.successor;
    }

    /** Moves the element at position `i` of chain `b` to the front of chain `d`. */
    method MoveTo(b: nat, prev: Store?, s: Store, d: nat, ghost i: nat)
      requires Valid() && b < heads.Length && i < |chains[b]| && s == chains[b][i] && d < heads.Length && d != b
      requires prev == if i == 0 then null else chains[b][i - 1]
      modifies this, heads, home.Keys
      ensures Valid() && heads == old(heads) && home.Keys == old(home.Keys)
      ensures chains == Move(old(chains), b, i, d)
      ensures |chains| == |old(chains)| && |chains[b]| == |old(chains)[b]| - 1
      ensures i > 0 ==> chains[b][i - 1] == prev
    {
      hide NoDup, Homes, IsChain, Remove;
      ChainRemove(heads[b], chains[b], i);
      HomesApart(chains, home, b);
      Cut(b, prev, s, i);
      Push(d, s);
    }

    /** Moves the elements of chain `b` that belong elsewhere to the front of their chains. */
    method RehashBucket(b: nat)
      requires Valid() && b < heads.Length
      modifies this, heads, home.Keys
      ensures Valid() && heads == old(heads) && home.Keys == old(home.Keys)
      ensures chains == HashChains.RehashBucket(HashFn(), old(chains), b, 0)
    {
      hide NoDup, Homes, IsChain, Move;
      var prev: Store? := null;
      ghost var i := 0;
      var s := Load(b, prev, 0);
      while s != null
        invariant Valid() && heads == old(heads) && home.Keys == old(home.Keys)
        invariant i <= |chains[b]| && s == Nth(chains[b], i)
        invariant prev == if i == 0 then null else chains[b][i - 1]
        invariant HashChains.RehashBucket(HashFn(), chains, b, i) ==
                  HashChains.RehashBucket(HashFn(), old(chains), b, 0)
        decreases |chains[b]| - i
      {
        var d := s.hash % heads.Length;
        if d == b {
          prev := s;
          i := i + 1;
        } else {
          MoveTo(b, prev, s, d, i);
        }
        s := Load(b, prev, i);
      }
    }

    /** The vector grows to `m` buckets; the new ones are empty. */
    method Resize(m: nat)
      requires Valid() && heads.Length <= m
      modifies this
      ensures Valid() && heads.Length == m && fresh(heads) && home == old(home)
      ensures chains == Grown(old(chains), m - old(heads.Length))
    {
      var n := heads.Length;
      var bigger := new Store?[m](_ => null);
      forall i | 0 <= i < n {
        bigger[i] := heads[i];
      }
      ghost var cs := Grown(chains, m - n);
      assert |cs| == m;
      assert forall b :: 0 <= b < n ==> cs[b] == chains[b];
      assert forall b :: n <= b < m ==> cs[b] == [];
      GrownHomes(chains, home, m - n);
      hide Homes, NoDup;
      assert forall b :: 0 <= b < m ==> IsChain(bigger[b], cs[b]);
      heads := bigger;
      chains := cs;
    }

    /** Grows the table and moves every element home in one pass over the original buckets. */
    method Rehash(m: nat)
      requires Valid() && heads.Length <= m
      modifies this, home.Keys
      ensures Valid() && heads.Length == m && home.Keys == old(home.Keys) && fresh(heads)
      ensures chains == Rehashed(HashFn(), old(chains), m)
    {
      hide NoDup, Homes, IsChain;
      var n := heads.Length;
      Resize(m);
      ghost var grown := chains;
      for b := 0 to n
        invariant Valid() && heads.Length == m && fresh(heads) && home.Keys == old(home.Keys)
        invariant RehashFrom(HashFn(), chains, b, n) == RehashFrom(HashFn(), grown, 0, n)
      {
        RehashBucket(b);
      }
    }
  }

  lemma GrownHomes(chains: seq<seq<Store>>, home: map<Store, nat>, k: nat)
    requires Homes(chains, home)
    ensures Homes(Grown(chains, k), home)
  {
  }

  /** After growth and rehash every element stands exactly once, in the chain that its hash selects. */
  lemma RehashedHome(chains: seq<seq<Store>>, m: nat, s: Store)
    requires 0 < m && |chains| <= m && Bag(chains)[s] == 1
    ensures var r := Rehashed(HashFn(), chains, m);
      s in r[s.hash % m] && Bag(r)[s] == 1 && forall d :: 0 <= d < m && s in r[d] ==> d == s.hash % m
  {
    RehashCorrect(HashFn(), chains, m);
    var r := Rehashed(HashFn(), chains, m);
    BagMember(r, s);
    var d :| 0 <= d < m && s in r[d];
    assert Placed(HashFn(), r[d], m, d);
  }
}
