/** The arithmetic of table growth. */
module Growth {

  function Ceil(x: real): int { -((-x).Floor) }

  /** The number of buckets wanted for `size` elements, capped by what the vector can hold. */
  function TargetBuckets(size: int, lf: real, maxBuckets: nat): int
    requires lf > 0.0
  {
    var t := Ceil(size as real / lf);
    if t < maxBuckets then t else maxBuckets
  }

  /** The next number of buckets: nine sevenths of the present one, computed on words of `w` values. */
  function NextBuckets(n: nat, w: nat, maxBuckets: nat): nat
    requires w > 0
  {
    var div := n / 7 + 1;
    var mul := (div * 9) % w;
    if mul / 9 != div then maxBuckets
    else if mul < maxBuckets then mul else maxBuckets
  }

  lemma SmallMod(x: nat, w: nat)
    requires x < w
    ensures x % w == x
  {
  }

  lemma NinthBelow(x: nat, div: nat)
    ensures x < div * 9 ==> x / 9 < div
  {
  }

  /** The division test detects the wrap-around of the product exactly. */
  lemma OverflowTestExact(div: nat, w: nat)
    requires div < w
    ensures (div * 9) % w / 9 != div <==> div * 9 >= w
  {
    var p := div * 9;
    var m := p % w;
    if p < w {
      SmallMod(p, w);
    } else {
      NinthBelow(m, div);
    }
  }

  /** Computed on words, growth leads to nine buckets for every seven, the last seven begun included, or to all that
      the vector can hold if that is less or the product overflows. It adds at least three buckets otherwise. */
  lemma NextBucketsGrows(n: nat, w: nat, maxBuckets: nat)
    requires n / 7 + 1 < w
    ensures NextBuckets(n, w, maxBuckets) <= maxBuckets
    ensures NextBuckets(n, w, maxBuckets) ==
      if (n / 7 + 1) * 9 < w && (n / 7 + 1) * 9 <= maxBuckets then (n / 7 + 1) * 9 else maxBuckets
    ensures (n / 7 + 1) * 9 < w ==> n + 3 <= (n / 7 + 1) * 9
    ensures (n / 7 + 1) * 9 < w && (n / 7 + 1) * 9 <= maxBuckets ==> NextBuckets(n, w, maxBuckets) >= n + 3
  {
    OverflowTestExact(n / 7 + 1, w);
  }

  lemma CeilBounds(x: real)
    ensures x <= Ceil(x) as real < x + 1.0
  {
  }

  lemma CeilMonotone(x: real, y: real)
    requires x <= y
    ensures Ceil(x) <= Ceil(y)
  {
    CeilBounds(x);
    CeilBounds(y);
  }

  /** One more element asks for at most three more buckets when the load factor is at least one third. */
  lemma OneMore(size: nat, lf: real)
    requires lf >= 1.0 / 3.0
    ensures Ceil((size + 1) as real / lf) <= Ceil(size as real / lf) + 3
  {
    var q := size as real / lf;
    assert (size + 1) as real / lf == q + 1.0 / lf;
    assert 1.0 / lf <= 3.0;
    CeilMonotone((size + 1) as real / lf, q + 3.0);
    assert Ceil(q + 3.0) == Ceil(q) + 3 by {
      CeilBounds(q);
      CeilBounds(q + 3.0);
    }
  }

  lemma FewerElements(size: int, size': int, lf: real)
    requires size' <= size && lf > 0.0
    ensures Ceil(size' as real / lf) <= Ceil(size as real / lf)
  {
    assert size' as real / lf <= size as real / lf;
    CeilMonotone(size' as real / lf, size as real / lf);
  }
}
