/** Prefix integers read back: the round trip, the reader's bound, and where it refuses. */
module HpackVarIntLaws {
  import opened Basics
  import opened HpackVarInt

  lemma HeadTail<T>(head: T, tail: seq<T>, rest: seq<T>)
    ensures [head] + tail + rest == [head] + (tail + rest)
    ensures ([head] + tail + rest)[0] == head && ([head] + tail + rest)[1..] == tail + rest
  {}

  lemma Shl7Sum(a: nat, b: nat, k: nat)
    ensures Shl7(a + b, k) == Shl7(a, k) + Shl7(b, k)
  {
    if k > 0 { Shl7Sum(a, b, k - 1); }
  }

  lemma Shl7Mono(a: nat, b: nat, k: nat)
    requires a <= b
    ensures Shl7(a, k) <= Shl7(b, k)
  {
    if k > 0 { Shl7Mono(a, b, k - 1); }
  }

  lemma Shl7Next(v: nat, k: nat)
    ensures Shl7(128 * v, k) == Shl7(v, k + 1)
  {
    if k > 0 { Shl7Next(v, k - 1); }
  }

  /** The low seven bits, and the rest. */
  lemma Groups(x: nat) returns (low: nat, high: nat)
    requires x >= 128
    ensures low < 128 && 0 < high < x && x == low + 128 * high
    ensures Continuation(x) == [128 + low] + Continuation(high)
  {
    low, high := x % 128, x / 128;
  }

  /** Seven bits at one weight and the rest at the next. */
  lemma Shl7Split(low: nat, high: nat, k: nat)
    ensures Shl7(low + 128 * high, k) == Shl7(low, k) + Shl7(high, k + 1)
  {
    Shl7Sum(low, 128 * high, k);
    Shl7Next(high, k);
  }

  lemma KeepGroup(low: nat, high: nat, k: nat)
    requires low < 128 && low + 128 * high >= Shl7(1, k) && k >= 1
    ensures high >= Shl7(1, k - 1)
  {
    Shl7Next(1, k - 1);
    Shl7Times(1, k - 1);
  }

  lemma Shl7Times(v: nat, k: nat)
    ensures Shl7(v, k + 1) == 128 * Shl7(v, k)
  {}

  lemma NineGroups()
    ensures Shl7(1, 9) == INT_LIMIT
  {
    assert Shl7(1, 2) == 16384;
    assert Shl7(1, 4) == 268435456;
    assert Shl7(1, 6) == 4398046511104;
    assert Shl7(1, 8) == 72057594037927936;
  }

  lemma Shl7Wider(v: nat, a: nat, b: nat)
    requires a <= b
    ensures Shl7(v, a) <= Shl7(v, b)
  {
    if a < b { Shl7Wider(v, a, b - 1); }
  }

  /** Nothing the loop adds up reaches 2^63 + 127, so the machine's 64-bit sum never wraps. */
  lemma {:induction false} ReadContinuationBound(p: Bytes, i: nat, k: nat)
    requires k <= 8 && i < 127 + Shl7(1, k)
    ensures var r := ReadContinuation(p, i, k); r.Parsed? ==> r.value < 127 + INT_LIMIT
  {
    if p != [] {
      var low := Low7(p[0]);
      Shl7Mono(low, 127, k);
      Shl7Sum(127, 1, k);
      Shl7Next(1, k);
      Shl7Wider(1, k + 1, 9);
      NineGroups();
      if p[0] >= 128 && k < 8 {
        ReadContinuationBound(p[1..], i + Shl7(low, k), k + 1);
      }
    }
  }

  lemma ReadStep(b: Byte, q: Bytes, i: nat, k: nat)
    ensures ReadContinuation([b] + q, i, k) ==
            var v := i + Shl7(Low7(b), k);
            if b < 128 then Parsed(v, q)
            else if 7 * (k + 1) >= 63 then Failed(VarIntOverflow)
            else ReadContinuation(q, v, k + 1)
  {
    assert ([b] + q)[1..] == q;
  }

  /** A byte that says more follow. */
  lemma ReadMore(low: nat, tail: Bytes, rest: Bytes, i: nat, k: nat)
    requires low < 128 && k <= 8
    ensures ReadContinuation([128 + low] + tail + rest, i, k) ==
            if k < 8 then ReadContinuation(tail + rest, i + Shl7(low, k), k + 1) else Failed(VarIntOverflow)
  {
    var q := tail + rest;
    assert [128 + low] + tail + rest == [128 + low] + q;
    ReadStep(128 + low, q, i, k);
  }

  lemma GroupFits(low: nat, high: nat, k: nat)
    requires k <= 8 && 0 < high && low + 128 * high < Shl7(1, 9 - k)
    ensures k < 8 && high < Shl7(1, 8 - k)
  {
    Shl7Times(1, 8 - k);
  }

  /** Two steps of the sums that the two sides make. */
  lemma SameSum(x: nat, low: nat, high: nat, i: nat, k: nat)
    requires x == low + 128 * high
    ensures i + Shl7(low, k) + Shl7(high, k + 1) == i + Shl7(x, k)
  {
    Shl7Split(low, high, k);
  }

  /** One byte that says more follow, then what the rest reads as. */
  lemma ReadTail(bytes: Bytes, low: nat, tail: Bytes, rest: Bytes, i: nat, k: nat, r: Parse<nat>)
    requires low < 128 && k < 8 && bytes == [128 + low] + tail
    requires ReadContinuation(tail + rest, i + Shl7(low, k), k + 1) == r
    ensures ReadContinuation(bytes + rest, i, k) == r
  {
    ReadMore(low, tail, rest, i, k);
  }

  lemma ReadLast(x: nat, rest: Bytes, i: nat, k: nat)
    requires x < 128
    ensures ReadContinuation(Continuation(x) + rest, i, k) == Parsed(i + Shl7(x, k), rest)
  {
    ReadStep(x, rest, i, k);
  }

  /** Reading back a continuation: what it held, at the weight it was read at. */
  lemma {:induction false} ContinuationRoundTrip(x: nat, i: nat, k: nat, rest: Bytes)
    requires k <= 8 && x < Shl7(1, 9 - k)
    ensures ReadContinuation(Continuation(x) + rest, i, k) == Parsed(i + Shl7(x, k), rest)
    decreases x
  {
    if x < 128 {
      ReadLast(x, rest, i, k);
    } else {
      var low, high := Groups(x);
      GroupFits(low, high, k);
      ContinuationRoundTrip(high, i + Shl7(low, k), k + 1, rest);
      SameSum(x, low, high, i, k);
      ReadTail(Continuation(x), low, Continuation(high), rest, i, k, Parsed(i + Shl7(x, k), rest));
    }
  }

  lemma ContinuationReads(x: nat, i: nat, rest: Bytes)
    requires x < INT_LIMIT
    ensures ReadContinuation(Continuation(x) + rest, i, 0) == Parsed(i + x, rest)
  {
    NineGroups();
    ContinuationRoundTrip(x, i, 0, rest);
  }

  /** readVarInt undoes appendVarInt for every integer below 2^63 — any index or length a
      Go program can hold — and never sees the flag bits. */
  lemma VarIntRoundTrip(flag: Byte, n: Prefix, i: nat, rest: Bytes)
    requires flag + Full(n) < 256 && LowBits(n, flag) == 0
    requires i < INT_LIMIT
    ensures ReadVarInt(n, Flagged(flag, n, i) + rest) == Parsed(i, rest)
  {
    var k := Full(n);
    FlaggedParts(flag, n, i);
    if i < k {
      ReadFlagged(flag, n, i, rest);
    } else {
      var tail := Continuation(i - k);
      HeadTail(flag + k, tail, rest);
      ReadFlagged(flag, n, k, tail + rest);
      ContinuationReads(i - k, k, rest);
    }
  }

  lemma FlaggedParts(flag: Byte, n: Prefix, i: nat)
    requires flag + Full(n) < 256
    ensures Flagged(flag, n, i) ==
            if i < Full(n) then [flag + i] else [flag + Full(n)] + Continuation(i - Full(n))
  {}

  lemma ReadHead(n: Prefix, b: Byte, q: Bytes)
    ensures ReadVarInt(n, [b] + q) ==
            var v := LowBits(n, b); if v < Full(n) then Parsed(v, q) else ReadContinuation(q, v, 0)
  {
    assert ([b] + q)[1..] == q;
  }

  lemma ReadFlagged(flag: Byte, n: Prefix, v: nat, q: Bytes)
    requires v <= Full(n) && flag + Full(n) < 256 && LowBits(n, flag) == 0
    ensures ReadVarInt(n, [flag + v] + q) == if v < Full(n) then Parsed(v, q) else ReadContinuation(q, v, 0)
  {
    FlagBits(flag, n, v);
    ReadHead(n, flag + v, q);
  }

  lemma FlagBits(flag: Byte, n: Prefix, v: nat)
    requires LowBits(n, flag) == 0 && v <= Full(n) && flag + v < 256
    ensures LowBits(n, flag + v) == v
  {
    if n == 4 {
      assert flag == 16 * (flag / 16);
      assert (flag + v) / 16 == flag / 16;
    } else if n == 5 {
      assert flag == 32 * (flag / 32);
      assert (flag + v) / 32 == flag / 32;
    } else if n == 6 {
      assert flag == 64 * (flag / 64);
      assert (flag + v) / 64 == flag / 64;
    }
  }

  /** The overflow check is exact: a continuation that stands for 2^63 or more is refused. */
  lemma {:induction false} ContinuationTooLong(x: nat, i: nat, k: nat, rest: Bytes)
    requires k <= 8 && x >= Shl7(1, 9 - k)
    ensures ReadContinuation(Continuation(x) + rest, i, k) == Failed(VarIntOverflow)
    decreases x
  {
    Shl7Wider(1, 1, 9 - k);
    var low, high := Groups(x);
    if k < 8 {
      KeepGroup(low, high, 9 - k);
      ContinuationTooLong(high, i + Shl7(low, k), k + 1, rest);
      ReadTail(Continuation(x), low, Continuation(high), rest, i, k, Failed(VarIntOverflow));
    } else {
      ReadMore(low, Continuation(high), rest, i, k);
    }
  }
}
