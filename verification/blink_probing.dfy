/** Triangular probing over a table of a power-of-two size: the first probes, as many as there are
    buckets, visit every bucket. */
module BlinkProbing {
  import opened Basics

  function Tri(k: nat): nat {
    if k == 0 then 0 else k + Tri(k - 1)
  }

  ghost predicate PowerOfTwo(size: nat) {
    exists m: nat :: size == Pow2(m)
  }

  lemma Doubled(size: nat)
    requires PowerOfTwo(size)
    ensures PowerOfTwo(2 * size)
  {
    var m: nat :| size == Pow2(m);
    assert 2 * size == Pow2(m + 1);
  }

  /** Bitwise and. */
  function And(a: nat, b: nat): nat {
    if a == 0 || b == 0 then 0 else (if a % 2 == 1 && b % 2 == 1 then 1 else 0) + 2 * And(a / 2, b / 2)
  }

  /** The remainder. */
  function Rest(n: nat, d: nat): (r: nat)
    requires d > 0
    ensures r < d
  {
    if n < d then n else Rest(n - d, d)
  }

  /** The bucket of the k-th probe, from 0. */
  function Bucket(h: nat, k: nat, size: nat): (b: nat)
    requires size > 0
    ensures b < size
  {
    Rest(h + Tri(k), size)
  }

  // ---- Remainders ----

  lemma {:induction false} RestHalf(n: nat, p: nat)
    requires p > 0
    ensures Rest(n, 2 * p) == n % 2 + 2 * Rest(n / 2, p)
  {
    if n >= 2 * p {
      RestHalf(n - 2 * p, p);
      assert (n - 2 * p) / 2 == n / 2 - p;
    }
  }

  /** Masking with a power of two less one leaves the remainder. */
  lemma {:induction false} MaskIsRest(n: nat, m: nat)
    ensures And(n, Pow2(m) - 1) == Rest(n, Pow2(m))
  {
    if m == 0 {
    } else {
      var p := Pow2(m - 1);
      RestHalf(n, p);
      MaskIsRest(n / 2, m - 1);
      assert (2 * p - 1) % 2 == 1 && (2 * p - 1) / 2 == p - 1;
    }
  }

  lemma {:induction false} RestAdd(a: nat, b: nat, d: nat)
    requires d > 0
    ensures Rest(a + b, d) == Rest(Rest(a, d) + b, d)
  {
    if a >= d {
      RestAdd(a - d, b, d);
    }
  }

  lemma {:induction false} SameRest(x: nat, y: nat, d: nat)
    requires d > 0 && x <= y && Rest(x, d) == Rest(y, d)
    ensures Rest(y - x, d) == 0
    decreases y
  {
    if x >= d {
      SameRest(x - d, y - d, d);
    } else if y - d >= x {
      SameRest(x, y - d, d);
    }
  }

  // ---- No two of the first size probes meet ----

  lemma {:induction false} TriDifference(a: nat, b: nat)
    requires a <= b
    ensures 2 * (Tri(b) - Tri(a)) == (b - a) * (b + a + 1)
  {
    if a < b {
      TriDifference(a, b - 1);
    }
  }

  lemma EvenProduct(x: nat, y: nat)
    requires (x * y) % 2 == 0 && y % 2 == 1
    ensures x % 2 == 0 && x * y == 2 * (x / 2 * y)
  {
    var z, w := y / 2, x / 2;
    assert x * y == x * (2 * z + 1) == 2 * (x * z) + x;
    assert x == 2 * w;
    assert (2 * w) * y == 2 * (w * y);
  }

  /** An odd factor holds no power of two. */
  lemma {:induction false} OddFactor(m: nat, x: nat, y: nat)
    requires Rest(x * y, Pow2(m)) == 0 && y % 2 == 1
    ensures Rest(x, Pow2(m)) == 0
  {
    if m == 0 {
    } else {
      var p := Pow2(m - 1);
      RestHalf(x * y, p);
      EvenProduct(x, y);
      OddFactor(m - 1, x / 2, y);
      RestHalf(x, p);
    }
  }

  lemma {:induction false} TriMonotone(a: nat, b: nat)
    requires a <= b
    ensures Tri(a) <= Tri(b)
  {
    if a < b {
      TriMonotone(a, b - 1);
    }
  }

  lemma RestSmall(x: nat, p: nat)
    requires x < p
    ensures Rest(x, p) == x
  {}

  /** Two numbers below a power of two, one of them odd, have no multiple of it as product. */
  lemma NoProduct(x: nat, y: nat, m: nat)
    requires 0 < x < Pow2(m) && 0 < y < Pow2(m) && x % 2 != y % 2
    ensures Rest(x * y, Pow2(m)) != 0
  {
    var p, xy := Pow2(m), x * y;
    RestSmall(x, p);
    RestSmall(y, p);
    if Rest(xy, p) == 0 {
      if y % 2 == 1 {
        OddFactor(m, x, y);
      } else {
        assert xy == y * x;
        OddFactor(m, y, x);
      }
    }
  }

  lemma {:induction false} TriDistance(a: nat, b: nat, m: nat)
    requires a < b < Pow2(m)
    ensures Tri(a) <= Tri(b) && Rest(Tri(b) - Tri(a), Pow2(m)) != 0
  {
    TriMonotone(a, b);
    TriDifference(a, b);
    var x, y := b - a, b + a + 1;
    assert x % 2 != y % 2 by {
      assert y == x + 2 * a + 1;
    }
    NoProduct(x, y, m + 1);
    HalfRest(Tri(b) - Tri(a), x * y, Pow2(m));
  }

  lemma HalfRest(d: nat, twice: nat, p: nat)
    requires p > 0 && twice == 2 * d && Rest(twice, 2 * p) != 0
    ensures Rest(d, p) != 0
  {
    RestHalf(twice, p);
    assert twice % 2 == 0 && twice / 2 == d;
  }

  lemma ProbesDiffer(h: nat, a: nat, b: nat, m: nat)
    requires a < b < Pow2(m)
    ensures Bucket(h, a, Pow2(m)) != Bucket(h, b, Pow2(m))
  {
    TriDistance(a, b, m);
    if Bucket(h, a, Pow2(m)) == Bucket(h, b, Pow2(m)) {
      SameRest(h + Tri(a), h + Tri(b), Pow2(m));
    }
  }

  // ---- So they meet every bucket ----

  /** The buckets of the first k probes. */
  ghost function Visited(h: nat, k: nat, size: nat): set<nat>
    requires size > 0
  {
    if k == 0 then {} else Visited(h, k - 1, size) + {Bucket(h, k - 1, size)}
  }

  ghost function Below(n: nat): set<nat> {
    if n == 0 then {} else Below(n - 1) + {n - 1}
  }

  lemma {:induction false} BelowMeans(n: nat, i: nat)
    ensures i in Below(n) <==> i < n
    ensures |Below(n)| == n
  {
    if n > 0 {
      BelowMeans(n - 1, i);
      BelowMeans(n - 1, n - 1);
    }
  }

  lemma {:induction false} VisitedMeans(h: nat, k: nat, size: nat, b: nat)
    requires size > 0
    ensures b in Visited(h, k, size) <==> exists j :: 0 <= j < k && Bucket(h, j, size) == b
    ensures b in Visited(h, k, size) ==> b < size
  {
    if k > 0 {
      VisitedMeans(h, k - 1, size, b);
    }
  }

  lemma {:induction false} VisitedSize(h: nat, k: nat, m: nat)
    requires k <= Pow2(m)
    ensures |Visited(h, k, Pow2(m))| == k
  {
    if k > 0 {
      VisitedSize(h, k - 1, m);
      VisitedMeans(h, k - 1, Pow2(m), Bucket(h, k - 1, Pow2(m)));
      forall j | 0 <= j < k - 1
        ensures Bucket(h, j, Pow2(m)) != Bucket(h, k - 1, Pow2(m))
      {
        ProbesDiffer(h, j, k - 1, m);
      }
    }
  }

  /** Every bucket is met by one of the first size probes, whatever the hash. */
  lemma {:induction false} EveryBucketProbed(h: nat, size: nat, b: nat) returns (k: nat)
    requires PowerOfTwo(size) && b < size
    ensures k < size && Bucket(h, k, size) == b
  {
    var m: nat :| size == Pow2(m);
    VisitedSize(h, size, m);
    forall x | x in Visited(h, size, size)
      ensures x in Below(size)
    {
      VisitedMeans(h, size, size, x);
      BelowMeans(size, x);
    }
    BelowMeans(size, b);
    SubsetSameSize(Visited(h, size, size), Below(size));
    VisitedMeans(h, size, size, b);
    k :| k < size && Bucket(h, k, size) == b;
  }

  lemma {:induction false} BucketMasked(h: nat, k: nat, size: nat)
    requires PowerOfTwo(size)
    ensures And(h, size - 1) == Bucket(h, 0, size)
    ensures And(Bucket(h, k, size) + (k + 1), size - 1) == Bucket(h, k + 1, size)
  {
    var m: nat :| size == Pow2(m);
    MaskIsRest(h, m);
    MaskIsRest(Bucket(h, k, size) + (k + 1), m);
    RestAdd(h + Tri(k), k + 1, size);
  }

  /** The code's first probe: mask the hash. */
  method FirstProbe(h: nat, size: nat) returns (i: nat)
    requires PowerOfTwo(size)
    ensures i == Bucket(h, 0, size)
  {
    BucketMasked(h, 0, size);
    i := And(h, size - 1);
  }

  /** The code's next probe: add the step and mask. */
  method NextProbe(ghost h: nat, i: nat, k: nat, size: nat) returns (j: nat)
    requires PowerOfTwo(size) && k > 0 && i == Bucket(h, k - 1, size)
    ensures j == Bucket(h, k, size)
  {
    BucketMasked(h, k - 1, size);
    j := And(i + k, size - 1);
  }
}
