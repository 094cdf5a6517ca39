/** The hash Blink's header map uses: rapidhash over the name folded to lower case and widened to
    16 bits a character, its low 24 bits. Names are ASCII. Words are numbers below 2^64; fields that
    the code joins with | do not overlap, so they are added here. */
module BlinkHash {
  import Basics

  type Name = s: string | forall c :: c in s ==> c < 128 as char witness ""

  type Word = nat

  const SEED: Word := 0xbdd89aa982704029
  const S0: Word := 0x2d358dccaa6c78a5
  const S1: Word := 0x8bb84b93962eacc9
  const S2: Word := 0x4b33a62ed433d4a3

  function Lower(c: char): char {
    if 'A' <= c <= 'Z' then c + 32 as char else c
  }

  function Fold(s: string): (r: string)
    ensures |r| == |s| && forall i :: 0 <= i < |s| ==> r[i] == Lower(s[i])
  {
    seq(|s|, i requires 0 <= i < |s| => Lower(s[i]))
  }

  /** What strings.EqualFold says of two ASCII names. */
  predicate EqualFold(a: string, b: string) {
    Fold(a) == Fold(b)
  }

  // ---- 64-bit operations ----

  /** A word's 64 bits. */
  function Bits(a: Word): bv64 {
    (a % Basics.TWO_64) as bv64
  }

  function XorBits(x: bv64, y: bv64): Word {
    (x ^ y) as nat
  }

  function Xor(a: Word, b: Word): Word {
    XorBits(Bits(a), Bits(b))
  }

  /** The words of the 128-bit product. */
  function Low(a: Word, b: Word): Word {
    (a * b) % Basics.TWO_64
  }

  function High(a: Word, b: Word): Word {
    var p := a * b;
    p / Basics.TWO_64
  }

  /** The operations as the hash uses them: its proofs need nothing of what they compute. */
  datatype Machine = Machine(xor: (Word, Word) -> Word, low: (Word, Word) -> Word, high: (Word, Word) -> Word)

  const GO := Machine(Xor, Low, High)

  /** rapidMix. */
  function Mix(m: Machine, a: Word, b: Word): Word {
    m.xor(m.low(a, b), m.high(a, b))
  }

  // ---- The hash of a sequence of 16-bit units ----

  function Pack(a: char, b: char): Word {
    a as nat + 0x1_0000 * b as nat
  }

  function Read32(u: string, i: nat): Word
    requires i + 2 <= |u|
  {
    Pack(u[i], u[i + 1])
  }

  function Read64(u: string, i: nat): Word
    requires i + 4 <= |u|
  {
    Read32(u, i) + 0x1_0000_0000 * Read32(u, i + 2)
  }

  /** Two 32-bit reads, the first on top. */
  function Pair(u: string, i: nat, j: nat): Word
    requires i + 2 <= |u| && j + 2 <= |u|
  {
    0x1_0000_0000 * Read32(u, i) + Read32(u, j)
  }

  datatype Lanes = Lanes(seed: Word, see1: Word, see2: Word)

  /** One block of 24 units. */
  function Block(m: Machine, u: string, p: nat, s: Lanes): Lanes
    requires p + 24 <= |u|
  {
    Lanes(Mix(m, m.xor(Read64(u, p), S0), m.xor(Read64(u, p + 4), s.seed)),
          Mix(m, m.xor(Read64(u, p + 8), S1), m.xor(Read64(u, p + 12), s.see1)),
          Mix(m, m.xor(Read64(u, p + 16), S2), m.xor(Read64(u, p + 20), s.see2)))
  }

  /** The first p units, as many whole blocks as they hold. */
  function Blocks(m: Machine, u: string, p: nat, seed: Word): Lanes
    requires p <= |u|
  {
    if p < 24 then Lanes(seed, seed, seed) else Block(m, u, p - 24, Blocks(m, u, p - 24, seed))
  }

  /** How many units of n whole blocks cover. */
  function WholeBlocks(n: nat): (p: nat)
    ensures p <= n < p + 24
  {
    if n < 24 then 0 else 24 + WholeBlocks(n - 24)
  }

  function Combined(m: Machine, s: Lanes): Word {
    m.xor(s.seed, m.xor(s.see1, s.see2))
  }

  /** The seed after the units no block covers, from p on. */
  function Tail(m: Machine, u: string, p: nat, seed: Word): Word
    requires p <= |u|
  {
    if |u| - p <= 8 then seed
    else
      var first := Mix(m, m.xor(Read64(u, p), S2), m.xor(Read64(u, p + 4), m.xor(seed, S1)));
      if |u| - p <= 16 then first
      else Mix(m, m.xor(Read64(u, p + 8), S2), m.xor(Read64(u, p + 12), first))
  }

  /** The seed of a name of more than eight units, p of them in whole blocks. */
  function Seeded(m: Machine, u: string, p: nat, seed: Word): Word
    requires p <= |u|
  {
    if |u| <= 24 then Tail(m, u, 0, seed) else Tail(m, u, p, Combined(m, Blocks(m, u, p, seed)))
  }

  /** The two words of a name of at most eight units. */
  function ShortA(u: string): Word {
    if |u| >= 2 then Pair(u, 0, |u| - 2) else if |u| == 1 then u[0] as nat else 0
  }

  function ShortB(u: string): Word {
    if |u| >= 4 then Pair(u, 2, |u| - 4) else if |u| >= 2 then Pair(u, 0, |u| - 2) else 0
  }

  function Start(m: Machine, n: nat): Word {
    m.xor(m.xor(SEED, Mix(m, m.xor(SEED, S0), S1)), n % Basics.TWO_64)
  }

  const TOP8: nat := 0x100_0000

  /** The last step: both words mixed with the length, low 24 bits, never zero. */
  function Finish(m: Machine, a: Word, b: Word, seed: Word, n: nat): (h: nat)
    ensures 0 < h < TOP8
  {
    var (x, y) := (m.xor(a, S1), m.xor(b, seed));
    var h := Mix(m, m.xor(m.xor(m.low(x, y), S0), n % Basics.TWO_64), m.xor(m.high(x, y), S1)) % TOP8;
    if h == 0 then 0x80_0000 else h
  }

  function UnitsHash(m: Machine, u: string): (h: nat)
    ensures 0 < h < TOP8
  {
    var n := 2 * |u|;
    if |u| <= 8 then Finish(m, ShortA(u), ShortB(u), Start(m, n), n)
    else Finish(m, Read64(u, |u| - 8), Read64(u, |u| - 4), Seeded(m, u, WholeBlocks(|u|), Start(m, n)), n)
  }

  /** The hash of a name is that of its units folded to lower case, so spellings hash alike. */
  function Hash(name: Name): (h: nat)
    ensures 0 < h < TOP8
  {
    UnitsHash(GO, Fold(name))
  }

  lemma HashIgnoresCase(a: Name, b: Name)
    requires EqualFold(a, b)
    ensures Hash(a) == Hash(b)
  {}
}
