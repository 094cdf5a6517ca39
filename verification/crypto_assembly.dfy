/** Putting a TLS message together from CRYPTO fragments that arrive in any order, overlap and repeat. */
module CryptoAssembly {
  import opened Basics

  datatype Fragment = Fragment(off: nat, data: Bytes)

  // ---- The length as the code computes it ----

  /** Bitwise or. */
  function Or(a: nat, b: nat): nat {
    if a == 0 then b else if b == 0 then a
    else (if a % 2 == 1 || b % 2 == 1 then 1 else 0) + 2 * Or(a / 2, b / 2)
  }

  /** n << k. */
  function Up(n: nat, k: nat): nat {
    if k == 0 then n else 2 * Up(n, k - 1)
  }

  function Bit(a: nat, b: nat): nat {
    if a % 2 == 1 || b % 2 == 1 then 1 else 0
  }

  /** One bit of or, zeros included. */
  lemma OrBits(a: nat, b: nat)
    ensures Or(a, b) == Bit(a, b) + 2 * Or(a / 2, b / 2)
  {}

  /** The low k bits and the rest do not mix. */
  lemma {:induction false} OrSplit(a: nat, b: nat, c: nat, d: nat, k: nat)
    requires c < Up(1, k) && d < Up(1, k)
    ensures Or(Up(a, k) + c, Up(b, k) + d) == Up(Or(a, b), k) + Or(c, d)
  {
    if k > 0 {
      var u, v := Up(a, k - 1), Up(b, k - 1);
      OrSplit(a, b, c / 2, d / 2, k - 1);
      OrBits(c, d);
    }
  }

  /** The same for whole bytes. */
  lemma OrBytes(a: nat, b: nat, c: Byte, d: Byte)
    ensures Or(0x100 * a + c, 0x100 * b + d) == 0x100 * Or(a, b) + Or(c, d)
  {
    Up8(1);
    Up8(a);
    Up8(b);
    Up8(Or(a, b));
    OrSplit(a, b, c, d, 8);
  }

  lemma Up8(n: nat)
    ensures Up(n, 8) == 0x100 * n
  {
    assert Up(n, 1) == 2 * n;
    assert Up(n, 2) == 2 * Up(n, 1);
    assert Up(n, 4) == 4 * Up(n, 2);
    assert Up(n, 6) == 4 * Up(n, 4);
    assert Up(n, 8) == 4 * Up(n, 6);
  }

  /** Four bytes as the code reads a handshake header: + and | share a precedence, so the 4 is added
      to the top length byte before the others are joined. */
  function Need(b1: Byte, b2: Byte, b3: Byte): nat {
    Or(Or(4 + 0x1_0000 * b1, 0x100 * b2), b3)
  }

  function Length(b1: Byte, b2: Byte, b3: Byte): nat {
    0x1_0000 * b1 + 0x100 * b2 + b3
  }

  lemma OrZero(a: nat)
    ensures Or(a, 0) == a && Or(0, a) == a
  {}

  lemma Or4(b: nat)
    ensures Or(4, b) == if b / 4 % 2 == 1 then b else b + 4
  {
    OrBits(4, b);
    OrBits(2, b / 2);
    assert b / 2 / 2 == b / 4;
    assert b == 4 * (b / 4) + 2 * (b / 2 % 2) + b % 2;
  }

  /** The message's whole size exactly when bit 2 of the low length byte is clear; else four less. */
  lemma NeedExact(b1: Byte, b2: Byte, b3: Byte)
    ensures Need(b1, b2, b3) == Length(b1, b2, b3) + if b3 / 4 % 2 == 1 then 0 else 4
    ensures Need(b1, b2, b3) >= 4
  {
    OrBytes(0x100 * b1, b2, 4, 0);
    OrBytes(b1, 0, 0, b2);
    OrZero(b1);
    OrZero(b2);
    OrZero(4);
    assert Or(4 + 0x1_0000 * b1, 0x100 * b2) == 0x100 * (0x100 * b1 + b2) + 4;
    OrBytes(0x100 * b1 + b2, 0, 4, b3);
    OrZero(0x100 * b1 + b2);
    Or4(b3);
  }

  // ---- Assembly ----

  ghost predicate Covers(f: Fragment, i: nat) {
    f.off <= i < f.off + |f.data|
  }

  ghost predicate Covered(frags: seq<Fragment>, i: nat) {
    exists k :: 0 <= k < |frags| && Covers(frags[k], i)
  }

  /** Every fragment is a piece of the message. */
  ghost predicate CutFrom(frags: seq<Fragment>, m: Bytes) {
    forall k :: 0 <= k < |frags| ==>
      frags[k].off + |frags[k].data| <= |m| && frags[k].data == m[frags[k].off..frags[k].off + |frags[k].data|]
  }

  ghost predicate AllCovered(frags: seq<Fragment>, n: nat) {
    forall i :: 0 <= i < n ==> Covered(frags, i)
  }

  /** The byte at a place: the last fragment that covers it says. */
  function ByteAt(frags: seq<Fragment>, i: nat): Byte {
    if frags == [] then 0
    else
      var f := frags[|frags| - 1];
      if f.off <= i < f.off + |f.data| then f.data[i - f.off] else ByteAt(frags[..|frags| - 1], i)
  }

  function Prefix(frags: seq<Fragment>, n: nat): Bytes {
    seq(n, i requires 0 <= i < n => ByteAt(frags, i))
  }

  function NeedAt(frags: seq<Fragment>): nat {
    Need(ByteAt(frags, 1), ByteAt(frags, 2), ByteAt(frags, 3))
  }

  /** What comes of any fragments, even such as contradict each other: as many bytes as the first four
      ask for, or nothing. */
  ghost function Assembled(frags: seq<Fragment>): Option<Bytes> {
    if AllCovered(frags, 4) && AllCovered(frags, NeedAt(frags)) then Some(Prefix(frags, NeedAt(frags))) else None
  }

  function NeedOf(m: Bytes): nat
    requires |m| >= 4
  {
    Need(m[1], m[2], m[3])
  }

  /** What should come of the fragments of a message: all it needs of it, or nothing. */
  ghost function Answer(frags: seq<Fragment>, m: Bytes): Option<Bytes> {
    if |m| >= 4 && AllCovered(frags, 4) && NeedOf(m) <= |m| && AllCovered(frags, NeedOf(m)) then Some(m[..NeedOf(m)])
    else None
  }

  /** The buffers after some fragments: as far as the furthest reaches, marked where covered, and
      there the last fragment's bytes. */
  ghost predicate Laid(frags: seq<Fragment>, buf: Bytes, have: seq<bool>) {
    && |have| == |buf|
    && (forall i: nat :: Covered(frags, i) <==> i < |buf| && have[i])
    && (forall i :: 0 <= i < |buf| && have[i] ==> buf[i] == ByteAt(frags, i))
  }

  function Zeros(n: nat): Bytes {
    seq(n, _ => 0)
  }

  function Unset(n: nat): seq<bool> {
    seq(n, _ => false)
  }

  /** The buffers after one fragment: grown to hold it, its bytes written and marked. */
  ghost predicate Placed(f: Fragment, buf: Bytes, have: seq<bool>, buf': Bytes, have': seq<bool>)
    requires |have| == |buf|
  {
    && |have'| == |buf'| == (if f.off + |f.data| > |buf| then f.off + |f.data| else |buf|)
    && forall i :: 0 <= i < |buf'| ==>
         have'[i] == (Covers(f, i) || (i < |buf| && have[i]))
         && buf'[i] == if Covers(f, i) then f.data[i - f.off] else if i < |buf| then buf[i] else 0
  }

  /** One fragment placed at its offset. */
  method Lay(f: Fragment, buf: Bytes, have: seq<bool>) returns (buf': Bytes, have': seq<bool>)
    requires |have| == |buf|
    ensures Placed(f, buf, have, buf', have')
  {
    var end := f.off + |f.data|;
    buf', have' := buf, have;
    if end > |buf'| {
      buf' := buf' + Zeros(end - |buf'|);
      have' := have' + Unset(end - |have'|);
    }
    ghost var was := have';
    assert forall j :: 0 <= j < |was| ==> was[j] == (j < |buf| && have[j]);
    assert forall j :: 0 <= j < |was| ==> buf'[j] == if j < |buf| then buf[j] else 0;
    buf' := buf'[..f.off] + f.data + buf'[end..];
    var i := f.off;
    while i < end
      invariant f.off <= i <= end && |have'| == |was|
      invariant forall j :: 0 <= j < |was| ==> have'[j] == ((f.off <= j < i) || was[j])
    {
      have' := have'[i := true];
      i := i + 1;
    }
  }

  lemma CoveredNext(frags: seq<Fragment>, f: Fragment, i: nat)
    ensures Covered(frags + [f], i) <==> Covered(frags, i) || Covers(f, i)
  {
    if Covers(f, i) {
      assert Covers((frags + [f])[|frags|], i);
    }
    if Covered(frags, i) {
      var k :| 0 <= k < |frags| && Covers(frags[k], i);
      assert Covers((frags + [f])[k], i);
    }
  }

  lemma ByteNext(frags: seq<Fragment>, f: Fragment, i: nat)
    ensures ByteAt(frags + [f], i) == if Covers(f, i) then f.data[i - f.off] else ByteAt(frags, i)
  {
    assert (frags + [f])[..|frags|] == frags;
  }

  lemma LaidNext(frags: seq<Fragment>, f: Fragment, buf: Bytes, have: seq<bool>, buf': Bytes, have': seq<bool>)
    requires Laid(frags, buf, have) && Placed(f, buf, have, buf', have')
    ensures Laid(frags + [f], buf', have')
  {
    forall i: nat
      ensures Covered(frags + [f], i) <==> i < |buf'| && have'[i]
    {
      CoveredNext(frags, f, i);
      if Covered(frags, i) {
        assert i < |buf| && have[i];
      }
      assert i < |buf'| ==> have'[i] == (Covers(f, i) || (i < |buf| && have[i]));
    }
    forall i | 0 <= i < |buf'| && have'[i]
      ensures buf'[i] == ByteAt(frags + [f], i)
    {
      ByteNext(frags, f, i);
    }
  }

  /** assemble. */
  method Assemble(crypto: seq<Fragment>) returns (r: Option<Bytes>)
    ensures r == Assembled(crypto)
  {
    var buf: Bytes, have: seq<bool> := [], [];
    var k := 0;
    while k < |crypto|
      invariant k <= |crypto| && Laid(crypto[..k], buf, have)
    {
      var buf', have' := Lay(crypto[k], buf, have);
      LaidNext(crypto[..k], crypto[k], buf, have, buf', have');
      assert crypto[..k] + [crypto[k]] == crypto[..k + 1];
      buf, have := buf', have';
      k := k + 1;
    }
    assert crypto[..k] == crypto;
    if |buf| < 4 || !have[0] || !have[1] || !have[2] || !have[3] {
      NotAll(crypto, buf, have, 4);
      return None;
    }
    var need := Need(buf[1], buf[2], buf[3]);
    NeedExact(buf[1], buf[2], buf[3]);
    if |buf| < need {
      NotAll(crypto, buf, have, need);
      return None;
    }
    var i := 0;
    while i < need
      invariant i <= need && forall j :: 0 <= j < i ==> have[j]
    {
      if !have[i] {
        NotAll(crypto, buf, have, need);
        return None;
      }
      i := i + 1;
    }
    AllThere(crypto, buf, have, need);
    r := Some(buf[..need]);
  }

  lemma AllThere(frags: seq<Fragment>, buf: Bytes, have: seq<bool>, need: nat)
    requires Laid(frags, buf, have) && 4 <= need <= |buf| && forall j :: 0 <= j < need ==> have[j]
    ensures AllCovered(frags, 4) && AllCovered(frags, need) && buf[..need] == Prefix(frags, need)
  {}

  lemma NotAll(frags: seq<Fragment>, buf: Bytes, have: seq<bool>, n: nat)
    requires Laid(frags, buf, have) && (|buf| < n || exists i :: 0 <= i < n && !have[i])
    ensures !AllCovered(frags, n)
  {
    if |buf| < n {
      assert !Covered(frags, |buf|);
    } else {
      var i :| 0 <= i < n && !have[i];
      assert !Covered(frags, i);
    }
  }

  // ---- What that means ----

  lemma {:induction false} ByteIs(frags: seq<Fragment>, m: Bytes, i: nat)
    requires CutFrom(frags, m) && Covered(frags, i)
    ensures i < |m| && ByteAt(frags, i) == m[i]
    decreases |frags|
  {
    var n := |frags| - 1;
    var f := frags[n];
    if Covers(f, i) {
      assert f.data[i - f.off] == m[f.off..f.off + |f.data|][i - f.off];
    } else {
      var k :| 0 <= k < |frags| && Covers(frags[k], i);
      assert Covers(frags[..n][k], i);
      ByteIs(frags[..n], m, i);
    }
  }

  lemma CoveredFits(frags: seq<Fragment>, m: Bytes, n: nat)
    requires CutFrom(frags, m) && AllCovered(frags, n)
    ensures n <= |m| && Prefix(frags, n) == m[..n]
  {
    if n > |m| {
      assert Covered(frags, |m|);
      ByteIs(frags, m, |m|);
    }
    forall i | 0 <= i < n
      ensures Prefix(frags, n)[i] == m[i]
    {
      assert Covered(frags, i);
      ByteIs(frags, m, i);
    }
  }

  /** Fragments cut from one message give what the message should. */
  lemma AssembledIsAnswer(frags: seq<Fragment>, m: Bytes)
    requires CutFrom(frags, m)
    ensures Assembled(frags) == Answer(frags, m)
  {
    if AllCovered(frags, 4) {
      CoveredFits(frags, m, 4);
      forall i | 0 <= i < 4
        ensures ByteAt(frags, i) == m[i]
      {
        assert Covered(frags, i);
        ByteIs(frags, m, i);
      }
      if AllCovered(frags, NeedAt(frags)) {
        CoveredFits(frags, m, NeedAt(frags));
      }
    }
  }

  ghost predicate SameCover(a: seq<Fragment>, b: seq<Fragment>) {
    forall i: nat :: Covered(a, i) <==> Covered(b, i)
  }

  /** Only which bytes are covered matters: not order, overlap or repetition. */
  lemma OnlyCoverMatters(a: seq<Fragment>, b: seq<Fragment>, m: Bytes)
    requires SameCover(a, b)
    ensures Answer(a, m) == Answer(b, m)
  {
    forall n: nat ensures AllCovered(a, n) <==> AllCovered(b, n) {}
  }

  /** The answer is a prefix of the message, and more fragments do not change it. */
  lemma AnswerStays(a: seq<Fragment>, more: seq<Fragment>, m: Bytes)
    requires Answer(a, m).Some?
    ensures Answer(a, m).value <= m && Answer(a + more, m) == Answer(a, m)
  {
    forall n: nat | AllCovered(a, n)
      ensures AllCovered(a + more, n)
    {
      forall i | 0 <= i < n
        ensures Covered(a + more, i)
      {
        assert Covered(a, i);
        var k :| 0 <= k < |a| && Covers(a[k], i);
        assert Covers((a + more)[k], i);
      }
    }
  }

  /** A whole TLS message is its header and as many bytes as that says. */
  ghost predicate Whole(m: Bytes) {
    |m| >= 4 && |m| == 4 + Length(m[1], m[2], m[3])
  }

  /** All of a whole message comes back exactly when bit 2 of its low length byte is clear; when it is
      set the last four bytes are cut off, though they are there. */
  lemma WholeExact(frags: seq<Fragment>, m: Bytes)
    requires Whole(m) && CutFrom(frags, m) && AllCovered(frags, |m|)
    ensures Answer(frags, m) == Some(if m[3] / 4 % 2 == 0 then m else m[..|m| - 4])
  {
    NeedExact(m[1], m[2], m[3]);
    forall n: nat | n <= |m|
      ensures AllCovered(frags, n)
    {}
    assert m[..|m|] == m;
  }
}
