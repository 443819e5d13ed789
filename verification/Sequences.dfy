/** Facts about sequences shared by the queue, the bucket chains and the cache. */
module Sequences {

  ghost predicate NoDup<T>(s: seq<T>) {
    forall i, j :: 0 <= i < j < |s| ==> s[i] != s[j]
  }

  /** `s` without the first occurrence of `x`: what unlinking a list node leaves. */
  function Remove<T(==)>(s: seq<T>, x: T): (r: seq<T>)
    ensures x !in s ==> r == s
    ensures x in s ==> |r| == |s| - 1
    ensures forall y :: y in r ==> y in s
    ensures forall y :: y in s && y != x ==> y in r
  {
    if s == [] then []
    else if s[0] == x then s[1..]
    else [s[0]] + Remove(s[1..], x)
  }

  /** Removing the node found at position `i` of a duplicate-free list closes the gap and shifts nothing before it. */
  lemma {:induction false} RemoveAt<T>(s: seq<T>, i: nat)
    requires NoDup(s) && i < |s|
    ensures Remove(s, s[i]) == s[..i] + s[i + 1..]
  {
    if i == 0 {
      assert s[..0] + s[1..] == s[1..];
    } else {
      var t := s[1..];
      assert s[0] != s[i];
      assert NoDup(t);
      hide NoDup;
      RemoveAt(t, i - 1);
      assert t[i - 1] == s[i] && t[i..] == s[i + 1..];
      assert [s[0]] + t[..i - 1] == s[..i];
      assert [s[0]] + (t[..i - 1] + t[i..]) == s[..i] + s[i + 1..];
    }
  }

  lemma RemoveNoDup<T>(s: seq<T>, x: T)
    requires NoDup(s)
    ensures NoDup(Remove(s, x)) && x !in Remove(s, x)
  {
    if x in s {
      var i :| 0 <= i < |s| && s[i] == x;
      RemoveAt(s, i);
    }
  }

  lemma {:induction false} RemoveConcat<T>(s: seq<T>, t: seq<T>, x: T)
    ensures Remove(s + t, x) == if x in s then Remove(s, x) + t else s + Remove(t, x)
  {
    if s == [] {
      assert s + t == t;
    } else {
      var h, r := s[0], s[1..];
      assert (s + t)[0] == h && (s + t)[1..] == r + t;
      RemoveConcat(r, t, x);
      assert s == [h] + r;
      assert [h] + (Remove(r, x) + t) == [h] + Remove(r, x) + t;
      assert [h] + (r + Remove(t, x)) == s + Remove(t, x);
    }
  }

  lemma NoDupConcat<T>(s: seq<T>, t: seq<T>)
    ensures NoDup(s + t) <==> NoDup(s) && NoDup(t) && forall x :: x in s ==> x !in t
  {
    if NoDup(s + t) {
      forall i, j | 0 <= i < j < |s| ensures s[i] != s[j] { assert (s + t)[i] != (s + t)[j]; }
      forall i, j | 0 <= i < j < |t| ensures t[i] != t[j] { assert (s + t)[|s| + i] != (s + t)[|s| + j]; }
      forall i, j | 0 <= i < |s| && 0 <= j < |t| ensures s[i] != t[j] { assert (s + t)[i] != (s + t)[|s| + j]; }
    } else {
      var i, j :| 0 <= i < j < |s + t| && (s + t)[i] == (s + t)[j];
      if |s| <= i {
        assert t[i - |s|] == t[j - |s|];
      } else if |s| <= j {
        assert s[i] in s && t[j - |s|] in t;
      } else {
        assert s[i] == s[j];
      }
    }
  }

  lemma TakeTake<T>(s: seq<T>, m: nat, n: nat)
    requires n <= m <= |s|
    ensures s[..m][..n] == s[..n]
  {
  }

  lemma {:induction false} NoDupWithin<T>(s: seq<T>, a: set<T>)
    requires NoDup(s) && forall x :: x in s ==> x in a
    ensures |s| <= |a|
  {
    if s != [] {
      NoDupWithin(s[1..], a - {s[0]});
    }
  }

  lemma {:induction false} NoDupCovers<T>(s: seq<T>, a: set<T>)
    requires NoDup(s) && forall x :: x in a ==> x in s
    ensures |a| <= |s|
  {
    if s == [] {
      assert a == {};
    } else {
      var a' := a - {s[0]};
      forall x | x in a' ensures x in s[1..] {
        assert x in s && x != s[0];
      }
      NoDupCovers(s[1..], a');
      assert s[0] in a ==> a == a' + {s[0]};
      assert s[0] !in a ==> a == a';
    }
  }
}
