/** ClientHello bodies and extensions as bytes, and the reading of them by position. */
module EchWire {
  import opened Basics

  type Word16 = n: nat | n < 0x1_0000

  /** Strings an 8-bit or a 16-bit length can precede. */
  type Data8 = s: Bytes | |s| < 256
  type Data16 = s: Bytes | |s| < 0x1_0000

  function U16(n: Word16): (r: Bytes)
    ensures |r| == 2
  {
    [n / 256, n % 256]
  }

  function Read16(b: Bytes, i: nat): Word16
    requires i + 2 <= |b|
  {
    var high: nat, low: nat := b[i], b[i + 1];
    256 * high + low
  }

  function Prefixed8(s: Data8): (r: Bytes)
    ensures |r| == 1 + |s|
  {
    [|s|] + s
  }

  function Prefixed16(s: Data16): (r: Bytes)
    ensures |r| == 2 + |s|
  {
    U16(|s|) + s
  }

  datatype Ext = Ext(id: Word16, data: Data16)

  function ExtBytes(e: Ext): (r: Bytes)
    ensures |r| == 4 + |e.data|
  {
    U16(e.id) + Prefixed16(e.data)
  }

  function Types(es: seq<Ext>): (r: seq<Word16>)
    ensures |r| == |es| && forall i :: 0 <= i < |es| ==> r[i] == es[i].id
  {
    seq(|es|, i requires 0 <= i < |es| => es[i].id)
  }

  /** Extensions one after another. */
  function Exts(es: seq<Ext>): Bytes {
    if es == [] then [] else ExtBytes(es[0]) + Exts(es[1..])
  }

  lemma {:induction false} ExtsConcat(a: seq<Ext>, b: seq<Ext>)
    ensures Exts(a + b) == Exts(a) + Exts(b)
    decreases |a|
  {
    if a == [] {
      assert a + b == b;
    } else {
      assert (a + b)[1..] == a[1..] + b;
      ExtsConcat(a[1..], b);
    }
  }

  lemma ExtsOne(e: Ext)
    ensures Exts([e]) == ExtBytes(e)
  {
    assert [e][1..] == [];
  }

  // ---- What stands where ----

  ghost predicate Stands(b: Bytes, i: nat, x: Bytes) {
    i + |x| <= |b| && b[i..i + |x|] == x
  }

  lemma StandsSplit(b: Bytes, i: nat, x: Bytes, y: Bytes)
    requires Stands(b, i, x + y)
    ensures Stands(b, i, x) && Stands(b, i + |x|, y)
  {
    var whole := b[i..i + |x + y|];
    assert whole[..|x|] == x && whole[|x|..] == y;
  }

  // ---- Reading by position ----

  /** Past a string with a length of 8 or 16 bits, if it is all there. */
  function Skip8(b: Bytes, i: nat): Option<nat> {
    if i >= |b| then None
    else
      var n: nat := b[i];
      if i + 1 + n > |b| then None else Some(i + 1 + n)
  }

  function Skip16(b: Bytes, i: nat): (r: Option<nat>)
    ensures r.Some? ==> i + 2 <= r.value <= |b|
  {
    if i + 2 > |b| || i + 2 + Read16(b, i) > |b| then None else Some(i + 2 + Read16(b, i))
  }

  lemma Skips8(b: Bytes, i: nat, x: Data8)
    requires Stands(b, i, Prefixed8(x))
    ensures Skip8(b, i) == Some(i + 1 + |x|) && b[i + 1..i + 1 + |x|] == x
  {
    StandsSplit(b, i, [|x|], x);
    assert b[i..i + 1][0] == b[i];
  }

  lemma StandsWord(b: Bytes, i: nat, n: Word16)
    requires Stands(b, i, U16(n))
    ensures Read16(b, i) == n
  {
    assert b[i..i + 2][0] == b[i] && b[i..i + 2][1] == b[i + 1];
  }

  lemma Skips16(b: Bytes, i: nat, x: Data16)
    requires Stands(b, i, Prefixed16(x))
    ensures Skip16(b, i) == Some(i + 2 + |x|) && b[i + 2..i + 2 + |x|] == x
  {
    StandsSplit(b, i, U16(|x|), x);
    StandsWord(b, i, |x|);
  }

  /** The extensions that start between two positions; one that runs past the bytes ends the list. */
  function ReadExts(b: Bytes, i: nat, end: nat): seq<Ext>
    requires end <= |b|
    decreases end - i
  {
    if i + 4 > end then []
    else
      match Skip16(b, i + 2)
      case None => []
      case Some(next) => [Ext(Read16(b, i), b[i + 4..next])] + ReadExts(b, next, end)
  }

  lemma ReadsFirst(b: Bytes, i: nat, end: nat, e: Ext, x: Bytes)
    requires x == ExtBytes(e) && Stands(b, i, x) && i + |x| <= end <= |b|
    ensures ReadExts(b, i, end) == [e] + ReadExts(b, i + |x|, end)
  {
    StandsSplit(b, i, U16(e.id), Prefixed16(e.data));
    StandsWord(b, i, e.id);
    Skips16(b, i + 2, e.data);
  }

  lemma ReadsCons(b: Bytes, i: nat, end: nat, e: Ext, x: Bytes, y: Bytes, rest: seq<Ext>)
    requires x == ExtBytes(e) && Stands(b, i, x) && end == i + |x| + |y| && end <= |b|
    requires ReadExts(b, i + |x|, end) == rest
    ensures ReadExts(b, i, end) == [e] + rest
  {
    ReadsFirst(b, i, end, e, x);
  }

  /** Written extensions read back, wherever they stand. */
  lemma {:induction false} ReadsExts(b: Bytes, i: nat, end: nat, es: seq<Ext>)
    requires Stands(b, i, Exts(es)) && end == i + |Exts(es)|
    ensures ReadExts(b, i, end) == es
    decreases |es|
  {
    if es != [] {
      var e, rest := es[0], es[1..];
      var x, y := ExtBytes(e), Exts(rest);
      StandsSplit(b, i, x, y);
      ReadsExts(b, i + |x|, end, rest);
      ReadsCons(b, i, end, e, x, y, rest);
    }
  }

  // ---- Hellos ----

  const HEAD := 34

  /** A hello's fields: version and random, session ID, cipher suites, compression methods, extensions. */
  datatype Hello = Hello(head: Bytes, sessionID: Data8, suites: Data16, comp: Data8, exts: seq<Ext>)

  ghost predicate Fits(h: Hello) {
    |h.head| == HEAD && |Exts(h.exts)| < 0x1_0000
  }

  /** A hello's body given its extensions as bytes. */
  function Body(head: Bytes, sessionID: Data8, suites: Data16, comp: Data8, exts: Data16): Bytes {
    head + (Prefixed8(sessionID) + (Prefixed16(suites) + (Prefixed8(comp) + Prefixed16(exts))))
  }

  ghost function HelloBytes(h: Hello): Bytes
    requires Fits(h)
  {
    Body(h.head, h.sessionID, h.suites, h.comp, Exts(h.exts))
  }

  /** Where the cipher suites, the extensions' length and the end of a body are. */
  datatype Places = Places(middle: nat, extStart: nat, extEnd: nat)

  /** What a parser that keeps positions makes of a body. */
  datatype Parsed = Parsed(sessionID: Bytes, middle: nat, extStart: nat, extEnd: nat, exts: seq<Ext>)

  /** parseHello's positions; none where the code would read past the end. */
  function Locate(b: Bytes): (r: Option<Places>)
    ensures r.Some? ==> HEAD < r.value.middle <= r.value.extStart && r.value.extStart + 2 <= r.value.extEnd <= |b|
  {
    match Skip8(b, HEAD)
    case None => None
    case Some(m) =>
      match Skip16(b, m)
      case None => None
      case Some(c) =>
        match Skip8(b, c)
        case None => None
        case Some(s) =>
          match Skip16(b, s)
          case None => None
          case Some(e) => Some(Places(m, s, e))
  }

  /** parseHello. */
  function Parse(b: Bytes): (r: Option<Parsed>)
    ensures r.Some? ==> HEAD < r.value.middle <= r.value.extStart <= r.value.extEnd <= |b|
  {
    match Locate(b)
    case None => None
    case Some(p) =>
      var exts := ReadExts(b, p.extStart + 2, p.extEnd);
      Some(Parsed(b[HEAD + 1..p.middle], p.middle, p.extStart, p.extEnd, exts))
  }

  /** Where a body's parts are. */
  ghost predicate Laid(b: Bytes, h: Hello, m: nat, c: nat, s: nat, e: nat)
    requires Fits(h)
  {
    && m == HEAD + 1 + |h.sessionID| && c == m + 2 + |h.suites| && s == c + 1 + |h.comp| && e == s + 2 + |Exts(h.exts)|
    && Stands(b, 0, h.head)
    && Stands(b, HEAD, Prefixed8(h.sessionID))
    && Stands(b, m, Prefixed16(h.suites))
    && Stands(b, c, Prefixed8(h.comp))
    && Stands(b, s, Prefixed16(Exts(h.exts)))
  }

  lemma HelloLaid(h: Hello, pad: Bytes) returns (m: nat, c: nat, s: nat, e: nat)
    requires Fits(h)
    ensures Laid(HelloBytes(h) + pad, h, m, c, s, e)
  {
    m := HEAD + 1 + |h.sessionID|;
    c := m + 2 + |h.suites|;
    s := c + 1 + |h.comp|;
    e := s + 2 + |Exts(h.exts)|;
    LaidParts(HelloBytes(h) + pad, h.head, Prefixed8(h.sessionID), Prefixed16(h.suites), Prefixed8(h.comp),
              Prefixed16(Exts(h.exts)), pad);
  }

  lemma LaidParts(b: Bytes, p: Bytes, q: Bytes, r: Bytes, t: Bytes, u: Bytes, pad: Bytes)
    requires b == p + (q + (r + (t + u))) + pad
    ensures Stands(b, 0, p) && Stands(b, |p|, q) && Stands(b, |p| + |q|, r) && Stands(b, |p| + |q| + |r|, t)
    ensures Stands(b, |p| + |q| + |r| + |t|, u)
  {}

  lemma LocateSteps(b: Bytes, m: nat, c: nat, s: nat, e: nat)
    requires Skip8(b, HEAD) == Some(m) && Skip16(b, m) == Some(c) && Skip8(b, c) == Some(s) && Skip16(b, s) == Some(e)
    ensures Locate(b) == Some(Places(m, s, e))
  {}

  lemma ReadsBlock(b: Bytes, s: nat, e: nat, exts: Data16, es: seq<Ext>)
    requires exts == Exts(es) && Stands(b, s, Prefixed16(exts)) && e == s + 2 + |exts|
    ensures e <= |b| && Skip16(b, s) == Some(e) && ReadExts(b, s + 2, e) == es
  {
    Skips16(b, s, exts);
    StandsSplit(b, s, U16(|exts|), exts);
    ReadsExts(b, s + 2, e, es);
  }

  lemma ParsesAt(b: Bytes, id: Bytes, m: nat, s: nat, e: nat, es: seq<Ext>)
    requires Locate(b) == Some(Places(m, s, e)) && Stands(b, HEAD + 1, id) && m == HEAD + 1 + |id|
    requires e <= |b| && ReadExts(b, s + 2, e) == es
    ensures Parse(b) == Some(Parsed(id, m, s, e, es))
  {}

  lemma LocatesParts(b: Bytes, id: Data8, suites: Data16, comp: Data8, m: nat, c: nat, s: nat, e: nat)
    requires m == HEAD + 1 + |id| && c == m + 2 + |suites| && s == c + 1 + |comp|
    requires Stands(b, HEAD, Prefixed8(id)) && Stands(b, m, Prefixed16(suites)) && Stands(b, c, Prefixed8(comp))
    requires Skip16(b, s) == Some(e)
    ensures Locate(b) == Some(Places(m, s, e)) && Stands(b, HEAD + 1, id)
  {
    Skips8(b, HEAD, id);
    Skips16(b, m, suites);
    Skips8(b, c, comp);
    LocateSteps(b, m, c, s, e);
  }

  lemma ParsesParts(b: Bytes, id: Data8, suites: Data16, comp: Data8, exts: Data16, es: seq<Ext>,
                    m: nat, c: nat, s: nat, e: nat)
    requires m == HEAD + 1 + |id| && c == m + 2 + |suites| && s == c + 1 + |comp| && e == s + 2 + |exts|
    requires Stands(b, HEAD, Prefixed8(id)) && Stands(b, m, Prefixed16(suites)) && Stands(b, c, Prefixed8(comp))
    requires exts == Exts(es) && Stands(b, s, Prefixed16(exts))
    ensures Parse(b) == Some(Parsed(id, m, s, e, es))
  {
    ReadsBlock(b, s, e, exts, es);
    LocatesParts(b, id, suites, comp, m, c, s, e);
    ParsesAt(b, id, m, s, e, es);
  }

  /** A body, whatever follows it, parses to its parts. */
  lemma ParsesLaid(b: Bytes, h: Hello, m: nat, c: nat, s: nat, e: nat)
    requires Fits(h) && Laid(b, h, m, c, s, e)
    ensures Parse(b) == Some(Parsed(h.sessionID, m, s, e, h.exts))
  {
    ParsesParts(b, h.sessionID, h.suites, h.comp, Exts(h.exts), h.exts, m, c, s, e);
  }
}
