/** The form of what is written, read off the bytes: which strings are Huffman-coded, what a field's
    first byte says of it, and that integers are as short as they can be. */
module HpackForms {
  import opened Basics
  import opened HpackVarInt
  import opened HpackVarIntLaws
  import opened HpackTable
  import opened HpackCodec
  import opened HpackChoices
  import opened HpackRoundTrip

  // ---- Strings ----

  /** What stands after a string's length. */
  function Body(cfg: Config, s: Bytes, coded: bool): Bytes {
    if coded then cfg.huffman.encode(s) else s
  }

  /** p begins with s, Huffman-coded as said (section 5.2 of RFC 7541), and goes on with rest. */
  ghost predicate BeginsWith(cfg: Config, p: Bytes, s: Bytes, coded: bool, rest: Bytes) {
    && p != [] && (p[0] >= 128 <==> coded)
    && ReadVarInt(7, p) == Parsed(|Body(cfg, s, coded)|, Body(cfg, s, coded) + rest)
  }

  /** A string is coded always, or exactly when its code is shorter. */
  predicate Coded(cfg: Config, s: Bytes) {
    cfg.huffmanAlways || |cfg.huffman.encode(s)| < |s|
  }

  /** The high bit of a string's first byte, and the bytes after its length, by the setting. */
  lemma StringForm(cfg: Config, s: Bytes, rest: Bytes)
    requires |s| < INT_LIMIT && |cfg.huffman.encode(s)| < INT_LIMIT
    ensures BeginsWith(cfg, StringBytes(cfg, s) + rest, s, Coded(cfg, s), rest)
  {
    var h := cfg.huffman.encode(s);
    if cfg.huffmanAlways || |h| < |s| {
      LengthThenBytes(0x80, h, rest);
    } else {
      assert VarInt(7, |s|) == Flagged(0, 7, |s|);
      LengthThenBytes(0, s, rest);
    }
  }

  /** A literal's bytes after its index: its name, if no entry is referred to, and its value. */
  ghost predicate LiteralStrings(cfg: Config, f: Field, idx: nat, p: Bytes, rest: Bytes) {
    if idx == 0 then
      exists q :: BeginsWith(cfg, p, f.name, Coded(cfg, f.name), q)
                  && BeginsWith(cfg, q, f.value, Coded(cfg, f.value), rest)
    else BeginsWith(cfg, p, f.value, Coded(cfg, f.value), rest)
  }

  /** Both strings of every literal follow the setting. */
  lemma LiteralForm(cfg: Config, idx: nat, indexing: bool, never: bool, f: Field, rest: Bytes)
    requires Writable(cfg, f) && idx < INT_LIMIT && (indexing ==> !never)
    ensures var r := ReadVarInt(if indexing then 6 else 4, ReprBytes(cfg, Literal(idx, indexing, never), f) + rest);
            r.Parsed? && r.value == idx && LiteralStrings(cfg, f, idx, r.rest, rest)
  {
    var n: Prefix := if indexing then 6 else 4;
    var flag := TypeByte(indexing, never);
    var name, value := NameBytes(cfg, idx, indexing, never, f.name), StringBytes(cfg, f.value);
    Assoc(name, value, rest);
    StringForm(cfg, f.value, rest);
    if idx == 0 {
      var bytes := StringBytes(cfg, f.name);
      assert Flagged(flag, n, 0) == [flag];
      Assoc([flag], bytes, value + rest);
      VarIntRoundTrip(flag, n, 0, bytes + (value + rest));
      StringForm(cfg, f.name, value + rest);
    } else {
      VarIntRoundTrip(flag, n, idx, value + rest);
    }
  }

  // ---- Kinds ----

  /** The first byte of a field: an index, a literal that is stored, one never to be indexed, or neither. */
  lemma KindExactly(cfg: Config, t: Table, f: Field)
    ensures var b := FieldBytes(cfg, t, f)[0];
            && (b >= 128 <==> !f.sensitive && cfg.policy(f.name, f.value) !in {IndexLiteral, IndexNever}
                              && Held(cfg, t, f))
            && (64 <= b < 128 <==> MayBeStored(cfg, f) && !Held(cfg, t, f) && f.Entry().Size() <= t.maxSize)
            && (16 <= b < 32 <==> f.sensitive || cfg.policy(f.name, f.value) == IndexNever)
  {
    IndexedExactly(cfg, t, f);
    var r := Choose(cfg, t, f);
    if r.Literal? {
      FirstByte(cfg, r, f, []);
      assert ReprBytes(cfg, r, f) + [] == ReprBytes(cfg, r, f);
    }
  }

  // ---- Integers ----

  /** k bytes hold the numbers of k groups of seven bits. */
  lemma {:induction false} ContinuationLength(x: nat, k: nat)
    requires k >= 1
    ensures |Continuation(x)| <= k <==> x < Shl7(1, k)
    decreases x
  {
    if x < 128 {
      Shl7Wider(1, 1, k);
    } else {
      var low, high := Groups(x);
      if k > 1 {
        ContinuationLength(high, k - 1);
        Shl7Times(1, k - 1);
      }
    }
  }

  /** A group and the unit above it stay within the next unit. */
  lemma GroupAdds(low: nat, k: nat)
    requires low < 128
    ensures Shl7(low, k) + Shl7(1, k) <= Shl7(1, k + 1)
  {
    Shl7Sum(low, 1, k);
    Shl7Mono(low + 1, 128, k);
    Shl7Next(1, k);
  }

  /** Bytes that add up from i to v between two weights. */
  ghost predicate Adds(v: nat, i: nat, k: nat, m: nat) {
    i <= v && v + Shl7(1, k) <= i + Shl7(1, m)
  }

  lemma AddsMore(v: nat, i: nat, low: nat, k: nat, m: nat)
    requires low < 128 && Adds(v, i + Shl7(low, k), k + 1, m)
    ensures Adds(v, i, k, m)
  {
    GroupAdds(low, k);
  }

  lemma AddsOne(i: nat, low: nat, k: nat)
    requires low < 128
    ensures Adds(i + Shl7(low, k), i, k, k + 1)
  {
    GroupAdds(low, k);
  }

  /** What bytes of a continuation can add: m is the weight after the last of them. */
  lemma {:induction false} ContinuationAdds(p: Bytes, i: nat, k: nat, v: nat, rest: Bytes, m: nat)
    requires ReadContinuation(p, i, k) == Parsed(v, rest) && m == k + |p| - |rest|
    ensures Adds(v, i, k, m)
    decreases p
  {
    var low := Low7(p[0]);
    if p[0] < 128 {
      AddsOne(i, low, k);
    } else {
      ContinuationAdds(p[1..], i + Shl7(low, k), k + 1, v, rest, m);
      AddsMore(v, i, low, k, m);
    }
  }

  /** No bytes the reader takes for the number are fewer than those written. */
  lemma VarIntShortest(n: Prefix, i: nat, p: Bytes)
    requires ReadVarInt(n, p).Parsed? && ReadVarInt(n, p).value == i
    ensures |VarInt(n, i)| <= |p| - |ReadVarInt(n, p).rest|
  {
    var v, rest := LowBits(n, p[0]), ReadVarInt(n, p).rest;
    if v == Full(n) {
      var m := |p| - 1 - |rest|;
      ContinuationAdds(p[1..], v, 0, i, rest, m);
      ContinuationLength(i - v, m);
    }
  }

  // ---- What the decoder refuses ----

  /** An index is read exactly if it stands for an entry of either table. */
  lemma IndexRead(statics: seq<Entry>, huffman: Huffman, t: Table, first: bool, allowed: Word, i: nat, rest: Bytes)
    requires i < INT_LIMIT
    ensures var r := DecodeRepr(statics, huffman, t, first, allowed, Flagged(0x80, 7, i) + rest);
            if 1 <= i <= |statics| then
              r == Parsed(Emitted(Some(Field(statics[i - 1].name, statics[i - 1].value, false)), t), rest)
            else if |statics| < i <= |statics| + |t.ents| then
              var e := t.ents[|statics| + |t.ents| - i];
              r == Parsed(Emitted(Some(Field(e.name, e.value, false)), t), rest)
            else r == Failed(InvalidIndex)
  {
    VarIntRoundTrip(0x80, 7, i, rest);
  }

  /** A change of the table's size is read exactly at the start of a block or while the table is empty, and
      up to what is allowed; then the table gets that size. */
  lemma SizeUpdateRead(statics: seq<Entry>, huffman: Huffman, t: Table, first: bool, allowed: Word, v: Word,
                       rest: Bytes)
    ensures var r := DecodeRepr(statics, huffman, t, first, allowed, Flagged(0x20, 5, v) + rest);
            if (first || t.size == 0) && v <= allowed then r == Parsed(Emitted(None, t.Resize(v)), rest)
            else r == Failed(SizeUpdate)
  {
    VarIntRoundTrip(0x20, 5, v, rest);
  }
}
