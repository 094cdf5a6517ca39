/** The integer representation of HPACK (section 5.1 of RFC 7541): the encoder's
    appendVarInt and the decoder's readVarInt with its 63-bit overflow check. */
module HpackVarInt {
  import opened Basics

  /** Number of value bits the first byte of an integer carries. */
  type Prefix = n: int | 4 <= n <= 7 witness 7

  datatype DecodeError = NeedMore | VarIntOverflow | InvalidIndex | InvalidHuffman | SizeUpdate

  /** What a parser returns: the value and the bytes after it, or why it stopped. */
  datatype Parse<+T> = Parsed(value: T, rest: Bytes) | Failed(error: DecodeError)

  /** v shifted left by k groups of seven bits. */
  function Shl7(v: nat, k: nat): (r: nat) {
    if k == 0 then v else 128 * Shl7(v, k - 1)
  }

  /** A Go int or slice length is below this. */
  const INT_LIMIT: nat := 0x8000_0000_0000_0000

  /** The prefix with every bit set: the first byte of an integer that continues. */
  function Full(n: Prefix): nat {
    if n == 4 then 15 else if n == 5 then 31 else if n == 6 then 63 else 127
  }

  /** A byte without its high bit. */
  function Low7(b: Byte): (r: nat)
    ensures r < 128
  {
    if b < 128 then b else b - 128
  }

  /** The value bits of a first byte. */
  function LowBits(n: Prefix, b: Byte): (r: nat)
    ensures r <= Full(n)
  {
    if n == 4 then b % 16 else if n == 5 then b % 32 else if n == 6 then b % 64 else Low7(b)
  }

  /** The bytes after a full prefix: seven bits a byte, low ones first, the high bit set on all but the last. */
  function Continuation(i: nat): (r: Bytes)
    ensures |r| >= 1
  {
    if i < 128 then [i] else [128 + i % 128] + Continuation(i / 128)
  }

  function VarInt(n: Prefix, i: nat): (r: Bytes)
    ensures |r| >= 1 && r[0] <= Full(n)
  {
    if i < Full(n) then [i] else [Full(n)] + Continuation(i - Full(n))
  }

  /** An integer whose first byte also carries flag bits above its n-bit prefix. */
  function Flagged(flag: Byte, n: Prefix, i: nat): (r: Bytes)
    requires flag + Full(n) < 256
    ensures |r| >= 1 && flag <= r[0] <= flag + Full(n)
  {
    var v := VarInt(n, i);
    [flag + v[0]] + v[1..]
  }

  method AppendVarInt(dst: Bytes, n: Prefix, i: nat) returns (out: Bytes)
    ensures out == dst + VarInt(n, i)
  {
    var k := Full(n);
    if i < k {
      return dst + [i];
    }
    out := dst + [k];
    var rest: nat := i - k;
    ghost var whole := out + Continuation(rest);
    while rest >= 128
      invariant out + Continuation(rest) == whole
    {
      var low, high := rest % 128, rest / 128;
      Assoc(out, [128 + low], Continuation(high));
      out, rest := out + [128 + low], high;
    }
    out := out + [rest];
    Assoc(dst, [k], Continuation(i - k));
  }

  /** The continuation loop of readVarInt after k bytes: i is what was read so far, the
      next byte weighs 2^(7k), and a ninth byte that continues is refused. */
  function ReadContinuation(p: Bytes, i: nat, k: nat): (r: Parse<nat>)
    ensures r.Parsed? ==> |r.rest| < |p| && r.rest == p[|p| - |r.rest|..]
  {
    if p == [] then Failed(NeedMore)
    else
      var v := i + Shl7(Low7(p[0]), k);
      if p[0] < 128 then Parsed(v, p[1..])
      else if 7 * (k + 1) >= 63 then Failed(VarIntOverflow)
      else ReadContinuation(p[1..], v, k + 1)
  }

  function ReadVarInt(n: Prefix, p: Bytes): (r: Parse<nat>)
    ensures r.Parsed? ==> |r.rest| < |p| && r.rest == p[|p| - |r.rest|..]
  {
    if p == [] then Failed(NeedMore)
    else
      var i := LowBits(n, p[0]);
      if i < Full(n) then Parsed(i, p[1..]) else ReadContinuation(p[1..], i, 0)
  }
}
