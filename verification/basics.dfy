/** Stock definitions and facts that several modules share. */
module Basics {

  datatype Option<+T> = None | Some(value: T)

  type Byte = n: nat | n < 256
  type Bytes = seq<Byte>

  function Pow2(k: nat): (p: nat)
    ensures p > 0
  {
    if k == 0 then 1 else 2 * Pow2(k - 1)
  }

  // ---- 64-bit numbers ----

  const TWO_63: int := 0x8000_0000_0000_0000
  const TWO_64: int := 0x1_0000_0000_0000_0000

  type Int64 = n: int | -TWO_63 <= n < TWO_63

  /** Two's complement: a signed result wraps. */
  function Wrap64(n: int): Int64 {
    var r := n % TWO_64;
    if r >= TWO_63 then r - TWO_64 else r
  }

  // ---- Sets and sequences ----

  lemma SubsetSameSize<T>(a: set<T>, b: set<T>)
    requires a <= b && |a| == |b|
    ensures a == b
  {
    assert b == a + (b - a);
  }

  lemma Assoc<T>(a: seq<T>, b: seq<T>, c: seq<T>)
    ensures a + b + c == a + (b + c)
  {}

  lemma FirstAt(a: string, x: string, u: string, c: char)
    requires c !in a && u == a + [c] + x
    ensures |a| < |u| && u[|a|] == c && forall i :: 0 <= i < |a| ==> u[i] != c
  {}

  /** Two strings up to a separator neither holds, and what follows it. */
  lemma {:induction false} SplitAt(a: string, b: string, x: string, y: string, c: char)
    requires c !in a && c !in b && a + [c] + x == b + [c] + y
    ensures a == b && x == y
  {
    var u := a + [c] + x;
    FirstAt(a, x, u, c);
    FirstAt(b, y, u, c);
    assert u[..|a|] == a && u[..|b|] == b;
    assert u[|a| + 1..] == x && u[|b| + 1..] == y;
  }
}
