/** The hash as the code computes it, reading the name itself and folding as it reads. */
module BlinkHasher {
  import opened BlinkHash

  function At(s: Name, i: nat): (c: char)
    requires i < |s|
    ensures c == Fold(s)[i]
  {
    var c := s[i];
    if 'A' <= c <= 'Z' then c + ('a' - 'A') else c
  }

  function NameRead32(s: Name, i: nat): (w: Word)
    requires i + 2 <= |s|
    ensures w == Read32(Fold(s), i)
  {
    Pack(At(s, i), At(s, i + 1))
  }

  function NameRead64(s: Name, i: nat): (w: Word)
    requires i + 4 <= |s|
    ensures w == Read64(Fold(s), i)
  {
    NameRead32(s, i) + 0x1_0000_0000 * NameRead32(s, i + 2)
  }

  function NamePair(s: Name, i: nat, j: nat): (w: Word)
    requires i + 2 <= |s| && j + 2 <= |s|
    ensures w == Pair(Fold(s), i, j)
  {
    0x1_0000_0000 * NameRead32(s, i) + NameRead32(s, j)
  }

  /** Half of (n & 24) >> (n >> 3). */
  method Delta(n: nat) returns (d: nat)
    requires 4 <= n <= 16
    ensures d == if n < 8 then 0 else 2
  {
    d := ((n as bv8 & 24) >> (n as bv8 >> 3)) as nat / 2;
  }

  method ShortWords(s: Name) returns (a: Word, b: Word)
    requires |s| <= 8
    ensures a == ShortA(Fold(s)) && b == ShortB(Fold(s))
  {
    var n := 2 * |s|;
    a, b := 0, 0;
    if n >= 4 {
      var last := (n - 4) / 2;
      assert last == |s| - 2;
      a := NamePair(s, 0, last);
      var delta := Delta(n);
      b := NamePair(s, delta, last - delta);
    } else if n > 0 {
      a := At(s, 0) as nat;
    }
  }

  /** With p units read, the whole blocks of n end where those of the rest do. */
  ghost predicate Left(n: nat, p: nat) {
    p <= n && WholeBlocks(n) == p + WholeBlocks(n - p)
  }

  lemma NoneLeft(n: nat, p: nat)
    requires Left(n, p) && n - p < 24
    ensures p == WholeBlocks(n)
  {}

  method ReadBlock(m: Machine, s: Name, p: nat, lanes: Lanes, ghost seed: Word) returns (r: Lanes)
    requires p + 24 <= |s| && lanes == Blocks(m, Fold(s), p, seed)
    ensures r == Blocks(m, Fold(s), p + 24, seed)
    ensures Left(|s|, p) ==> Left(|s|, p + 24)
  {
    r := Lanes(Mix(m, m.xor(NameRead64(s, p), S0), m.xor(NameRead64(s, p + 4), lanes.seed)),
               Mix(m, m.xor(NameRead64(s, p + 8), S1), m.xor(NameRead64(s, p + 12), lanes.see1)),
               Mix(m, m.xor(NameRead64(s, p + 16), S2), m.xor(NameRead64(s, p + 20), lanes.see2)));
  }

  /** Bytes left is i, units read is p. */
  method ReadBlocks(m: Machine, s: Name, seed: Word) returns (i: nat, p: nat, lanes: Lanes)
    requires |s| > 24
    ensures i == 2 * (|s| - p) && p == WholeBlocks(|s|)
    ensures lanes == Blocks(m, Fold(s), p, seed)
  {
    i, p := 2 * |s|, 0;
    lanes := Lanes(seed, seed, seed);
    while true
      invariant i == 2 * (|s| - p) && i >= 48 && Left(|s|, p)
      invariant lanes == Blocks(m, Fold(s), p, seed)
      decreases i
    {
      lanes := ReadBlock(m, s, p, lanes, seed);
      p, i := p + 24, i - 48;
      if i < 48 {
        NoneLeft(|s|, p);
        break;
      }
    }
  }

  method ReadTail(m: Machine, s: Name, i: nat, p: nat, seed: Word) returns (r: Word)
    requires p <= |s| && i == 2 * (|s| - p)
    ensures r == Tail(m, Fold(s), p, seed)
  {
    r := seed;
    if i > 16 {
      r := Mix(m, m.xor(NameRead64(s, p), S2), m.xor(NameRead64(s, p + 4), m.xor(r, S1)));
      if i > 32 {
        r := Mix(m, m.xor(NameRead64(s, p + 8), S2), m.xor(NameRead64(s, p + 12), r));
      }
    }
  }

  method ReadSeeded(m: Machine, name: Name, seed: Word) returns (i: nat, p: nat, r: Word)
    requires |name| > 8
    ensures i == 2 * (|name| - p) && r == Seeded(m, Fold(name), WholeBlocks(|name|), seed)
  {
    i, p, r := 2 * |name|, 0, seed;
    if i > 48 {
      var lanes;
      i, p, lanes := ReadBlocks(m, name, r);
      r := Combined(m, lanes);
    }
    r := ReadTail(m, name, i, p, r);
  }

  /** The last two words, where the blocks and the tail left off. */
  method ReadLast(s: Name, i: nat, p: nat) returns (a: Word, b: Word)
    requires |s| > 8 && i == 2 * (|s| - p)
    ensures a == Read64(Fold(s), |s| - 8) && b == Read64(Fold(s), |s| - 4)
  {
    assert i - 16 == 2 * (|s| - p - 8) && i - 8 == 2 * (|s| - p - 4);
    a := NameRead64(s, p + (i - 16) / 2);
    b := NameRead64(s, p + (i - 8) / 2);
  }

  /** blinkHash: every read stays inside the name, whatever its length. */
  method BlinkHashOf(name: Name) returns (h: nat)
    ensures h == Hash(name)
  {
    var n, m := 2 * |name|, GO;
    var seed := Start(m, n);
    var a, b;
    if n <= 16 {
      a, b := ShortWords(name);
    } else {
      var i, p;
      i, p, seed := ReadSeeded(m, name, seed);
      a, b := ReadLast(name, i, p);
    }
    h := Finish(m, a, b, seed, n);
  }
}
