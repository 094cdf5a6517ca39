/** Decoding undoes encoding: strings, names, fields and whole header blocks, whatever the client's
    choices. */
module HpackRoundTrip {
  import opened Basics
  import opened HpackVarInt
  import opened HpackVarIntLaws
  import opened HpackTable
  import opened HpackCodec

  /** Strings a Go program can hold: they, and their Huffman codes, are shorter than 2^63. */
  ghost predicate Writable(cfg: Config, f: Field) {
    && |f.name| < INT_LIMIT && |cfg.huffman.encode(f.name)| < INT_LIMIT
    && |f.value| < INT_LIMIT && |cfg.huffman.encode(f.value)| < INT_LIMIT
  }

  lemma StringRoundTrip(cfg: Config, s: Bytes, rest: Bytes)
    requires cfg.huffman.Lawful()
    requires |s| < INT_LIMIT && |cfg.huffman.encode(s)| < INT_LIMIT
    ensures ReadString(cfg.huffman, StringBytes(cfg, s) + rest) == Parsed(s, rest)
  {
    var h := cfg.huffman.encode(s);
    if cfg.huffmanAlways || |h| < |s| {
      LengthThenBytes(0x80, h, rest);
    } else {
      assert VarInt(7, |s|) == Flagged(0, 7, |s|);
      LengthThenBytes(0, s, rest);
    }
  }

  lemma LengthThenBytes(flag: Byte, s: Bytes, rest: Bytes)
    requires flag == 0 || flag == 0x80
    requires |s| < INT_LIMIT
    ensures var p := Flagged(flag, 7, |s|) + s + rest;
            && p != [] && (p[0] >= 128 <==> flag == 0x80)
            && ReadVarInt(7, p) == Parsed(|s|, s + rest)
            && (s + rest)[..|s|] == s && (s + rest)[|s|..] == rest
  {
    var head := Flagged(flag, 7, |s|);
    Assoc(head, s, rest);
    VarIntRoundTrip(flag, 7, |s|, s + rest);
  }

  /** A literal's name, by reference or in full, is read back whatever follows it. */
  lemma NameRoundTrip(cfg: Config, t: Table, name: Bytes, idx: nat, indexing: bool, never: bool, rest: Bytes)
    requires cfg.huffman.Lawful() && (indexing ==> !never) && idx < INT_LIMIT
    requires |name| < INT_LIMIT && |cfg.huffman.encode(name)| < INT_LIMIT
    requires idx > 0 ==> var e := At(cfg.statics, t.ents, idx); e.Some? && e.value.name == name
    ensures var r := ReadVarInt(if indexing then 6 else 4, NameBytes(cfg, idx, indexing, never, name) + rest);
            && r.Parsed? && r.value == idx
            && DecodeName(cfg.statics, cfg.huffman, t, idx, r.rest) == Parsed(name, rest)
  {
    var n: Prefix := if indexing then 6 else 4;
    var flag := TypeByte(indexing, never);
    if idx == 0 {
      var bytes := StringBytes(cfg, name);
      assert Flagged(flag, n, 0) == [flag];
      Assoc([flag], bytes, rest);
      VarIntRoundTrip(flag, n, 0, bytes + rest);
      StringRoundTrip(cfg, name, rest);
    } else {
      VarIntRoundTrip(flag, n, idx, rest);
    }
  }

  lemma LiteralRoundTrip(cfg: Config, t: Table, f: Field, idx: nat, indexing: bool, never: bool, rest: Bytes)
    requires cfg.huffman.Lawful() && Writable(cfg, f) && (indexing ==> !never)
    requires idx < INT_LIMIT
    requires idx > 0 ==> var e := At(cfg.statics, t.ents, idx); e.Some? && e.value.name == f.name
    ensures DecodeLiteral(cfg.statics, cfg.huffman, t, if indexing then 6 else 4, indexing, never,
                          ReprBytes(cfg, Literal(idx, indexing, never), f) + rest)
            == Parsed(Emitted(Some(Field(f.name, f.value, never)), if indexing then t.Add(f.Entry()) else t), rest)
  {
    var name, value := NameBytes(cfg, idx, indexing, never, f.name), StringBytes(cfg, f.value);
    Assoc(name, value, rest);
    NameRoundTrip(cfg, t, f.name, idx, indexing, never, value + rest);
    StringRoundTrip(cfg, f.value, rest);
  }

  /** What the receiver learns of a field: a never-indexed literal is marked sensitive. */
  function Received(cfg: Config, f: Field): Field {
    Field(f.name, f.value, f.sensitive || cfg.policy(f.name, f.value) == IndexNever)
  }

  /** A representation whose references are right is read back as the field. */
  lemma ReprRoundTrip(cfg: Config, t: Table, r: Repr, f: Field, rest: Bytes, first: bool, allowed: Word)
    requires cfg.huffman.Lawful() && Writable(cfg, f) && r.idx < INT_LIMIT
    requires r.Literal? && r.indexing ==> !r.never
    requires r.Indexed? ==> At(cfg.statics, t.ents, r.idx) == Some(f.Entry())
    requires r.Literal? && r.idx > 0 ==>
               var e := At(cfg.statics, t.ents, r.idx); e.Some? && e.value.name == f.name
    ensures DecodeRepr(cfg.statics, cfg.huffman, t, first, allowed, ReprBytes(cfg, r, f) + rest)
            == Parsed(Emitted(Some(Field(f.name, f.value, r.Literal? && r.never)), TableAfter(t, r, f)), rest)
  {
    match r
    case Indexed(idx) =>
      IndexedRoundTrip(cfg.statics, t, idx, f, rest);
    case Literal(idx, indexing, never) =>
      LiteralRoundTrip(cfg, t, f, idx, indexing, never, rest);
      FirstByte(cfg, r, f, rest);
  }

  /** One field: whatever the policy, the name rule, the Huffman setting and the tables, the
      decoder reads the bytes as that field and makes the same change to its table — also
      when the entry the name refers to is evicted by the field's own insertion. */
  lemma FieldRoundTrip(cfg: Config, t: Table, f: Field, rest: Bytes, first: bool, allowed: Word)
    requires cfg.huffman.Lawful() && Writable(cfg, f)
    requires |cfg.statics| + |t.ents| < INT_LIMIT
    ensures DecodeRepr(cfg.statics, cfg.huffman, t, first, allowed, FieldBytes(cfg, t, f) + rest)
            == Parsed(Emitted(Some(Received(cfg, f)), FieldTable(cfg, t, f)), rest)
  {
    var r := Choose(cfg, t, f);
    ChoiceSound(cfg, t, f);
    ReprRoundTrip(cfg, t, r, f, rest, first, allowed);
  }

  lemma IndexedRoundTrip(statics: seq<Entry>, t: Table, idx: nat, f: Field, rest: Bytes)
    requires idx < INT_LIMIT && At(statics, t.ents, idx) == Some(f.Entry())
    ensures var p := Flagged(0x80, 7, idx) + rest;
            p[0] >= 128 && DecodeIndexed(statics, t, p) == Parsed(Emitted(Some(Field(f.name, f.value, false)), t), rest)
  {
    VarIntRoundTrip(0x80, 7, idx, rest);
  }

  /** The first byte of a literal tells its kind. */
  lemma FirstByte(cfg: Config, r: Repr, f: Field, rest: Bytes)
    requires r.Literal? && (r.indexing ==> !r.never)
    ensures var b := (ReprBytes(cfg, r, f) + rest)[0];
            && (r.indexing <==> 64 <= b < 128) && (r.never <==> 16 <= b < 32)
            && (!r.indexing && !r.never <==> b < 16)
  {}

  function ReceivedAll(cfg: Config, fs: seq<Field>): (r: seq<Field>)
    ensures |r| == |fs| && forall i :: 0 <= i < |fs| ==> r[i] == Received(cfg, fs[i])
  {
    if fs == [] then [] else [Received(cfg, fs[0])] + ReceivedAll(cfg, fs[1..])
  }

  /** Every list of fields: the receiver reads back exactly those, in order, and both ends
      finish — after every prefix of the block — with the same dynamic table. */
  lemma {:induction false} BlockRoundTrip(cfg: Config, t: Table, fs: seq<Field>, first: bool, allowed: Word)
    requires cfg.huffman.Lawful() && forall f :: f in fs ==> Writable(cfg, f)
    requires |cfg.statics| + |t.ents| + |fs| < INT_LIMIT
    ensures DecodeBlock(cfg.statics, cfg.huffman, t, first, allowed, BlockBytes(cfg, t, fs))
            == Parsed((ReceivedAll(cfg, fs), BlockTable(cfg, t, fs)), [])
    decreases |fs|
  {
    if fs != [] {
      var f := fs[0];
      var next := FieldTable(cfg, t, f);
      var rest := BlockBytes(cfg, next, fs[1..]);
      BlockRoundTrip(cfg, next, fs[1..], false, allowed);
      FieldRoundTrip(cfg, t, f, rest, first, allowed);
    }
  }
}
