/** HPACK as this client writes it — every field indexed, literal or never indexed, its
    name taken from one of three table searches, its strings Huffman-coded or not — and
    the decoder of the same package. */
module HpackCodec {
  import opened Basics
  import opened HpackVarInt
  import opened HpackTable

  datatype Field = Field(name: Bytes, value: Bytes, sensitive: bool) {
    function Entry(): Entry {
      HpackTable.Entry.Entry(name, value)
    }
  }

  /** How a field goes into a header block. */
  datatype IndexMode = IndexDefault | IndexIncremental | IndexWithout | IndexNever | IndexLiteral

  /** Which table entry a literal refers to for its name. */
  datatype NameRef = NameGo | NameFirstStatic | NameScan

  /** The Huffman code of section 5.2 of RFC 7541: a decoder that undoes its encoder. */
  datatype Huffman = Huffman(encode: Bytes -> Bytes, decode: Bytes -> Parse<Bytes>) {
    ghost predicate Lawful() {
      forall s :: decode(encode(s)) == Parsed(s, [])
    }
  }

  /** Everything of an encoder that no field changes. */
  datatype Config = Config(
    statics: seq<Entry>,
    huffman: Huffman,
    policy: (Bytes, Bytes) -> IndexMode,
    nameRef: NameRef,
    huffmanAlways: bool)

  // ---- The tables seen through one index space (section 2.3.3 of RFC 7541) ----

  /** The entry an index stands for: the static table first, then the dynamic one, newest first. */
  function At(statics: seq<Entry>, ents: seq<Entry>, i: nat): Option<Entry> {
    if i == 0 then None
    else if i <= |statics| then Some(statics[i - 1])
    else if i > |statics| + |ents| then None
    else Some(ents[|ents| - (i - |statics|)])
  }

  // ---- Choosing a representation ----

  /** searchTable: an exact match in the static table, else one in the dynamic table, else a
      name in the static table, else one in the dynamic table; 0 when there is nothing. */
  function SearchTable(statics: seq<Entry>, ents: seq<Entry>, f: Field): (r: (nat, bool))
    ensures r.0 <= |statics| + |ents|
  {
    var (k, exact) := Find(statics, f.Entry(), f.sensitive);
    var (j, match_) := Find(ents, f.Entry(), f.sensitive);
    if exact then (k + 1, true)
    else if match_ || (k < 0 && j >= 0) then (|statics| + |ents| - j, match_)
    else (k + 1, false)
  }

  /** The entry a literal refers to for its name; idx is the one searchTable found. */
  function NameIndex(cfg: Config, ents: seq<Entry>, f: Field, idx: nat): (r: nat)
    requires idx <= |cfg.statics| + |ents|
    ensures r <= |cfg.statics| + |ents|
  {
    match cfg.nameRef
    case NameGo => idx
    case NameFirstStatic =>
      if 0 < idx <= |cfg.statics| then FirstName(cfg.statics, f.name) + 1 else idx
    case NameScan =>
      var k := FirstName(ents, f.name);
      if k >= 0 then |cfg.statics| + |ents| - k else idx
  }

  /** A field's representation on the wire, before it is bytes. */
  datatype Repr = Indexed(idx: nat) | Literal(idx: nat, indexing: bool, never: bool)

  function Choose(cfg: Config, t: Table, f: Field): (r: Repr)
    ensures r.idx <= |cfg.statics| + |t.ents|
  {
    var mode := cfg.policy(f.name, f.value);
    var (idx, found) := SearchTable(cfg.statics, t.ents, f);
    if found && mode != IndexLiteral && mode != IndexNever then Indexed(idx)
    else
      var ref := if found then idx else NameIndex(cfg, t.ents, f, idx);
      var fits := !f.sensitive && f.Entry().Size() <= t.maxSize;
      match mode
      case IndexDefault => Literal(ref, fits, f.sensitive)
      case IndexIncremental => Literal(ref, fits, f.sensitive)
      case IndexWithout => Literal(ref, false, f.sensitive)
      case IndexLiteral => Literal(ref, false, f.sensitive)
      case IndexNever => Literal(ref, false, true)
  }

  /** The entry a literal is written over has the field's name; an indexed one is the field. */
  lemma ChoiceSound(cfg: Config, t: Table, f: Field)
    ensures var r := Choose(cfg, t, f); var e := At(cfg.statics, t.ents, r.idx);
            && (r.Indexed? ==> e == Some(f.Entry()) && !f.sensitive)
            && (r.Literal? && r.idx > 0 ==> e.Some? && e.value.name == f.name)
  {}

  // ---- Bytes ----

  /** A string literal: Huffman-coded when that is shorter, or always. */
  function StringBytes(cfg: Config, s: Bytes): Bytes {
    var h := cfg.huffman.encode(s);
    if cfg.huffmanAlways || |h| < |s| then Flagged(0x80, 7, |h|) + h
    else VarInt(7, |s|) + s
  }

  function TypeByte(indexing: bool, never: bool): Byte {
    if never then 0x10 else if indexing then 0x40 else 0
  }

  /** The first part of a literal: its type, and its name by reference or in full. */
  function NameBytes(cfg: Config, idx: nat, indexing: bool, never: bool, name: Bytes): (r: Bytes)
    requires indexing ==> !never
    ensures var flag := TypeByte(indexing, never);
            |r| > 0 && flag <= r[0] <= flag + if indexing then 63 else 15
  {
    if idx == 0 then [TypeByte(indexing, never)] + StringBytes(cfg, name)
    else Flagged(TypeByte(indexing, never), if indexing then 6 else 4, idx)
  }

  /** The representation of a field as bytes (sections 6.1 and 6.2 of RFC 7541). */
  function ReprBytes(cfg: Config, r: Repr, f: Field): (b: Bytes)
    requires r.Literal? && r.indexing ==> !r.never
    ensures |b| > 0
  {
    match r
    case Indexed(idx) => Flagged(0x80, 7, idx)
    case Literal(idx, indexing, never) =>
      NameBytes(cfg, idx, indexing, never, f.name) + StringBytes(cfg, f.value)
  }

  /** The encoder's table after a representation. */
  function TableAfter(t: Table, r: Repr, f: Field): Table {
    if r.Literal? && r.indexing then t.Add(f.Entry()) else t
  }

  /** What one field adds to the block, and the table it leaves. */
  function FieldBytes(cfg: Config, t: Table, f: Field): (b: Bytes)
    ensures |b| > 0
  {
    ReprBytes(cfg, Choose(cfg, t, f), f)
  }

  function FieldTable(cfg: Config, t: Table, f: Field): Table {
    TableAfter(t, Choose(cfg, t, f), f)
  }

  // ---- The decoder ----

  function ReadString(huffman: Huffman, p: Bytes): Parse<Bytes> {
    if p == [] then Failed(NeedMore)
    else
      match ReadVarInt(7, p)
      case Failed(e) => Failed(e)
      case Parsed(n, q) =>
        if |q| < n then Failed(NeedMore)
        else if p[0] < 128 then Parsed(q[..n], q[n..])
        else
          match huffman.decode(q[..n])
          case Failed(e) => Failed(e)
          case Parsed(s, _) => Parsed(s, q[n..])
  }

  /** One step of a decoder: the field it emits, if any, and its table. */
  datatype Emitted = Emitted(field: Option<Field>, table: Table)

  function DecodeIndexed(statics: seq<Entry>, t: Table, p: Bytes): Parse<Emitted> {
    match ReadVarInt(7, p)
    case Failed(e) => Failed(e)
    case Parsed(idx, rest) =>
      match At(statics, t.ents, idx)
      case None => Failed(InvalidIndex)
      case Some(e) => Parsed(Emitted(Some(Field(e.name, e.value, false)), t), rest)
  }

  function DecodeName(statics: seq<Entry>, huffman: Huffman, t: Table, idx: nat, p: Bytes): Parse<Bytes> {
    if idx == 0 then ReadString(huffman, p)
    else
      match At(statics, t.ents, idx)
      case None => Failed(InvalidIndex)
      case Some(e) => Parsed(e.name, p)
  }

  /** A literal with an n-bit name index; it is added to the table when indexing. */
  function DecodeLiteral(statics: seq<Entry>, huffman: Huffman, t: Table, n: Prefix,
                         indexing: bool, never: bool, p: Bytes): Parse<Emitted>
  {
    match ReadVarInt(n, p)
    case Failed(e) => Failed(e)
    case Parsed(idx, q) =>
      match DecodeName(statics, huffman, t, idx, q)
      case Failed(e) => Failed(e)
      case Parsed(name, r) =>
        match ReadString(huffman, r)
        case Failed(e) => Failed(e)
        case Parsed(value, rest) =>
          Parsed(Emitted(Some(Field(name, value, never)),
                         if indexing then t.Add(Entry.Entry(name, value)) else t), rest)
  }

  /** A dynamic table size update (section 6.3 of RFC 7541): allowed first in a block or on an empty table. */
  function DecodeSizeUpdate(t: Table, first: bool, allowed: Word, p: Bytes): Parse<Emitted> {
    if !first && t.size > 0 then Failed(SizeUpdate)
    else
      match ReadVarInt(5, p)
      case Failed(e) => Failed(e)
      case Parsed(v, rest) =>
        if v > allowed then Failed(SizeUpdate) else Parsed(Emitted(None, t.Resize(v)), rest)
  }

  /** parseHeaderFieldRepr: the first byte's high bits select the representation. */
  function DecodeRepr(statics: seq<Entry>, huffman: Huffman, t: Table, first: bool, allowed: Word,
                      p: Bytes): Parse<Emitted>
    requires p != []
  {
    var b := p[0];
    if b >= 128 then DecodeIndexed(statics, t, p)
    else if b >= 64 then DecodeLiteral(statics, huffman, t, 6, true, false, p)
    else if b >= 32 then DecodeSizeUpdate(t, first, allowed, p)
    else if b >= 16 then DecodeLiteral(statics, huffman, t, 4, false, true, p)
    else DecodeLiteral(statics, huffman, t, 4, false, false, p)
  }

  // ---- Blocks ----

  /** A header block: every field in turn, each against the table the one before left. */
  function BlockBytes(cfg: Config, t: Table, fs: seq<Field>): Bytes
    decreases |fs|
  {
    if fs == [] then []
    else FieldBytes(cfg, t, fs[0]) + BlockBytes(cfg, FieldTable(cfg, t, fs[0]), fs[1..])
  }

  function BlockTable(cfg: Config, t: Table, fs: seq<Field>): Table
    decreases |fs|
  {
    if fs == [] then t
    else BlockTable(cfg, FieldTable(cfg, t, fs[0]), fs[1..])
  }

  /** The decoder's loop over a block: the fields it emits and the table it ends with. */
  function DecodeBlock(statics: seq<Entry>, huffman: Huffman, t: Table, first: bool, allowed: Word,
                       p: Bytes): Parse<(seq<Field>, Table)>
    decreases |p|
  {
    if p == [] then Parsed(([], t), [])
    else
      match DecodeRepr(statics, huffman, t, first, allowed, p)
      case Failed(e) => Failed(e)
      case Parsed(step, rest) =>
        if |rest| >= |p| then Failed(NeedMore)
        else
          match DecodeBlock(statics, huffman, step.table, false, allowed, rest)
          case Failed(e) => Failed(e)
          case Parsed(more, left) =>
            Parsed((if step.field.Some? then [step.field.value] + more.0 else more.0, more.1), left)
  }
}
