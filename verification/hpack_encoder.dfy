/** The encoder object: its tables, its buffer and the two write paths — the package's own
    and the one that takes the representation a browser would — each proved to append
    exactly the bytes of HpackCodec and to leave the table HpackCodec says. */
module HpackEncoder {
  import opened Basics
  import opened HpackVarInt
  import opened HpackTable
  import opened HpackCodec

  /** The policy of an encoder nobody configured. */
  const DEFAULT_POLICY: (Bytes, Bytes) -> IndexMode := (name, value) => IndexDefault

  /** first is where an integer was appended to dst; its first byte takes the flag bits. The
      bits are free there, so the machine's OR is a sum. */
  method Mark(dst: Bytes, n: Prefix, i: nat, flag: Byte) returns (out: Bytes)
    requires flag + Full(n) < 256
    ensures out == dst + Flagged(flag, n, i)
  {
    var first := |dst|;
    out := AppendVarInt(dst, n, i);
    assert out[first..] == VarInt(n, i);
    out := out[first := out[first] + flag];
    assert out == dst + out[first..];
    assert out[first..] == Flagged(flag, n, i);
  }

  /** The static table as the package builds it. */
  method NewStaticTable(statics: seq<Entry>) returns (st: HeaderFieldTable)
    ensures fresh(st) && st.Valid() && st.evictCount == 0 && st.ents == statics
  {
    st := new HeaderFieldTable();
    for i := 0 to |statics|
      invariant st.Valid() && st.evictCount == 0 && st.ents == statics[..i]
    {
      st.AddEntry(statics[i]);
    }
  }

  /** Each static name's first index. */
  ghost predicate FirstIndexes(first: map<Bytes, nat>, statics: seq<Entry>) {
    && (forall n :: n in first <==> FirstName(statics, n) >= 0)
    && (forall n :: n in first ==> first[n] == FirstName(statics, n) + 1)
  }

  lemma FirstIndexesNext(first: map<Bytes, nat>, statics: seq<Entry>, i: nat)
    requires i < |statics| && FirstIndexes(first, statics[..i])
    ensures FirstIndexes(if statics[i].name in first then first else first[statics[i].name := i + 1], statics[..i + 1])
  {
    forall n ensures FirstName(statics[..i + 1], n) ==
                     if FirstName(statics[..i], n) < 0 && statics[i].name == n then i else FirstName(statics[..i], n)
    {
      FirstNameExtend(statics, i, n);
    }
  }

  method NewFirstStatic(statics: seq<Entry>) returns (first: map<Bytes, nat>)
    ensures FirstIndexes(first, statics)
  {
    first := map[];
    for i := 0 to |statics|
      invariant FirstIndexes(first, statics[..i])
    {
      FirstIndexesNext(first, statics, i);
      if statics[i].name !in first {
        first := first[statics[i].name := i + 1];
      }
    }
    assert statics[..|statics|] == statics;
  }

  lemma ChosenIndexed(cfg: Config, t: Table, f: Field, idx: nat)
    requires SearchTable(cfg.statics, t.ents, f) == (idx, true)
    requires cfg.policy(f.name, f.value) !in {IndexLiteral, IndexNever}
    ensures Choose(cfg, t, f) == Indexed(idx)
  {}

  lemma ChosenLiteral(cfg: Config, t: Table, f: Field, place: nat, same: bool, idx: nat)
    requires SearchTable(cfg.statics, t.ents, f) == (place, same)
    requires same ==> cfg.policy(f.name, f.value) in {IndexLiteral, IndexNever}
    requires idx == if same then place else NameIndex(cfg, t.ents, f, place)
    ensures var mode := cfg.policy(f.name, f.value);
            var fits := !f.sensitive && f.Entry().Size() <= t.maxSize;
            Choose(cfg, t, f)
            == Literal(idx, fits && mode in {IndexDefault, IndexIncremental}, f.sensitive || mode == IndexNever)
  {}

  class Encoder {
    const statics: seq<Entry>
    const huffman: Huffman
    const staticTable: HeaderFieldTable
    const firstStatic: map<Bytes, nat>
    const dynTab: DynamicTable
    /** The policy, name rule and Huffman setting in force. */
    var cfg: Config
    var policySet: bool
    var buf: Bytes
    /** What the writer under the encoder has received. */
    var written: Bytes

    ghost predicate ValidTables()
      reads staticTable, dynTab, dynTab.table
    {
      && staticTable.Valid() && staticTable.evictCount == 0 && staticTable.ents == statics
      && dynTab.Valid() && dynTab.table != staticTable
      && FirstIndexes(firstStatic, statics)
    }

    ghost predicate ValidSettings()
      reads this`cfg, this`policySet
    {
      cfg.statics == statics && cfg.huffman == huffman && (!policySet ==> cfg.policy == DEFAULT_POLICY)
    }

    ghost predicate Valid()
      reads this, staticTable, dynTab, dynTab.table
    {
      ValidTables() && ValidSettings()
    }

    function Dynamic(): Table
      reads dynTab, dynTab.table
    {
      dynTab.Contents()
    }

    constructor (statics: seq<Entry>, huffman: Huffman, maxSize: Word)
      ensures Valid() && fresh(staticTable) && fresh(dynTab) && fresh(dynTab.table)
      ensures this.statics == statics && this.huffman == huffman && written == []
      ensures cfg == Config(statics, huffman, DEFAULT_POLICY, NameGo, false)
      ensures Dynamic() == Table([], 0, maxSize)
    {
      this.statics, this.huffman := statics, huffman;
      cfg, policySet := Config(statics, huffman, DEFAULT_POLICY, NameGo, false), false;
      buf, written := [], [];
      dynTab := new DynamicTable(maxSize);
      var st := NewStaticTable(statics);
      var first := NewFirstStatic(statics);
      staticTable, firstStatic := st, first;
    }

    method SetRepresentation(policy: (Bytes, Bytes) -> IndexMode, ref: NameRef, huffmanAlways: bool)
      requires Valid()
      modifies this
      ensures Valid() && written == old(written)
      ensures cfg == Config(statics, huffman, policy, ref, huffmanAlways)
    {
      cfg, policySet := Config(statics, huffman, policy, ref, huffmanAlways), true;
    }

    method Search(f: Field) returns (idx: nat, found: bool)
      requires staticTable.Valid() && staticTable.ents == statics && dynTab.Valid()
      ensures (idx, found) == SearchTable(statics, Dynamic().ents, f)
    {
      var k, m := staticTable.Search(f.Entry(), f.sensitive);
      if m {
        return k + 1, true;
      }
      var j, n := dynTab.table.Search(f.Entry(), f.sensitive);
      if n || (k < 0 && j >= 0) {
        return |statics| + (|dynTab.table.ents| - j), n;
      }
      return k + 1, false;
    }

    /** The entry a literal refers to for its name; idx is the search's. */
    method NameOf(f: Field, idx: nat) returns (r: nat)
      requires Valid()
      requires idx <= |statics| + |dynTab.table.ents|
      requires 0 < idx <= |statics| ==> statics[idx - 1].name == f.name
      ensures r == NameIndex(cfg, Dynamic().ents, f, idx)
    {
      match cfg.nameRef {
        case NameGo =>
        case NameFirstStatic =>
          if 0 < idx <= |statics| {
            FirstNameIsFirst(statics, f.name, idx - 1);
            return firstStatic[f.name];
          }
        case NameScan =>
          var ents := dynTab.table.ents;
          for k := 0 to |ents|
            invariant forall j :: 0 <= j < k ==> ents[j].name != f.name
          {
            if ents[k].name == f.name {
              FirstNameIsFirst(ents, f.name, k);
              return |statics| + (|ents| - k);
            }
          }
      }
      r := idx;
    }

    /** A string as the package writes it: Huffman-coded only when that is shorter. */
    method PlainString(dst: Bytes, s: Bytes) returns (out: Bytes)
      requires !cfg.huffmanAlways
      ensures out == dst + StringBytes(cfg, s)
    {
      var h := cfg.huffman.encode(s);
      if |h| < |s| {
        out := Mark(dst, 7, |h|, 0x80);
        out := out + h;
        Assoc(dst, Flagged(0x80, 7, |h|), h);
      } else {
        out := AppendVarInt(dst, 7, |s|);
        out := out + s;
        Assoc(dst, VarInt(7, |s|), s);
      }
    }

    method AppendString(dst: Bytes, s: Bytes) returns (out: Bytes)
      ensures out == dst + StringBytes(cfg, s)
    {
      if !cfg.huffmanAlways {
        out := PlainString(dst, s);
      } else {
        var h := cfg.huffman.encode(s);
        out := Mark(dst, 7, |h|, 0x80);
        out := out + h;
        Assoc(dst, Flagged(0x80, 7, |h|), h);
      }
    }

    /** A literal's bytes after dst. */
    method AppendLiteral(dst: Bytes, idx: nat, indexing: bool, never: bool, f: Field) returns (out: Bytes)
      requires indexing ==> !never
      ensures out == dst + ReprBytes(cfg, Literal(idx, indexing, never), f)
    {
      if idx == 0 {
        out := AppendString(dst + [TypeByte(indexing, never)], f.name);
        Assoc(dst, [TypeByte(indexing, never)], StringBytes(cfg, f.name));
      } else {
        out := Mark(dst, if indexing then 6 else 4, idx, TypeByte(indexing, never));
      }
      ghost var name := NameBytes(cfg, idx, indexing, never, f.name);
      assert out == dst + name;
      out := AppendString(out, f.value);
      Assoc(dst, name, StringBytes(cfg, f.value));
    }

    /** WriteField with the representation the profile's browser would choose. */
    method WriteChosen(f: Field) returns (out: Bytes)
      requires Valid()
      modifies dynTab, dynTab.table
      ensures ValidTables()
      ensures out == FieldBytes(cfg, old(Dynamic()), f)
      ensures Dynamic() == FieldTable(cfg, old(Dynamic()), f)
    {
      var mode := cfg.policy(f.name, f.value);
      ghost var t := Dynamic();
      var idx, found := Search(f);
      ghost var place, same := idx, found;
      if found && (mode == IndexLiteral || mode == IndexNever) {
        found := false;
      } else if !found {
        idx := NameOf(f, idx);
      }
      if found {
        ChosenIndexed(cfg, t, f, idx);
        out := Mark([], 7, idx, 0x80);
        return;
      }
      var indexing, never := ShouldIndex(f), f.sensitive;
      match mode {
        case IndexWithout => indexing := false;
        case IndexLiteral => indexing := false;
        case IndexNever => indexing, never := false, true;
        case _ =>
      }
      ChosenLiteral(cfg, t, f, place, same, idx);
      out := WriteLiteral(f, idx, indexing, never);
    }

    predicate ShouldIndex(f: Field)
      reads dynTab
    {
      !f.sensitive && f.Entry().Size() <= dynTab.maxSize
    }

    /** Adds to the table before the bytes are made: the reference in idx is to the table as it was. */
    method WriteLiteral(f: Field, idx: nat, indexing: bool, never: bool) returns (out: Bytes)
      requires ValidTables() && (indexing ==> !never)
      modifies dynTab, dynTab.table
      ensures ValidTables()
      ensures out == ReprBytes(cfg, Literal(idx, indexing, never), f)
      ensures Dynamic() == TableAfter(old(Dynamic()), Literal(idx, indexing, never), f)
    {
      if indexing {
        dynTab.Add(f.Entry());
      }
      out := AppendLiteral([], idx, indexing, never, f);
    }

    /** The package's own choice: index what fits. */
    method WritePlain(f: Field) returns (out: Bytes)
      requires Valid() && !policySet && cfg.nameRef == NameGo && !cfg.huffmanAlways
      modifies dynTab, dynTab.table
      ensures ValidTables()
      ensures out == FieldBytes(cfg, old(Dynamic()), f)
      ensures Dynamic() == FieldTable(cfg, old(Dynamic()), f)
    {
      ghost var t := Dynamic();
      var idx, found := Search(f);
      if found {
        ChosenIndexed(cfg, t, f, idx);
        out := Mark([], 7, idx, 0x80);
        return;
      }
      var indexing := ShouldIndex(f);
      assert Choose(cfg, t, f) == Literal(idx, indexing, f.sensitive);
      out := WriteLiteral(f, idx, indexing, f.sensitive);
    }

    method WriteField(f: Field)
      requires Valid()
      modifies this`buf, this`written, dynTab, dynTab.table
      ensures Valid()
      ensures written == old(written) + FieldBytes(cfg, old(Dynamic()), f)
      ensures Dynamic() == FieldTable(cfg, old(Dynamic()), f)
    {
      if policySet || cfg.nameRef != NameGo || cfg.huffmanAlways {
        buf := WriteChosen(f);
      } else {
        buf := WritePlain(f);
      }
      written := written + buf;
    }

    /** A whole block, field by field. */
    method WriteBlock(fs: seq<Field>)
      requires Valid()
      modifies this`buf, this`written, dynTab, dynTab.table
      ensures Valid()
      ensures written == old(written) + BlockBytes(cfg, old(Dynamic()), fs)
      ensures Dynamic() == BlockTable(cfg, old(Dynamic()), fs)
      decreases |fs|
    {
      if fs != [] {
        ghost var w, t := written, Dynamic();
        WriteField(fs[0]);
        ghost var t' := Dynamic();
        WriteBlock(fs[1..]);
        Assoc(w, FieldBytes(cfg, t, fs[0]), BlockBytes(cfg, t', fs[1..]));
      }
    }
  }

  lemma FirstNameExtend(ents: seq<Entry>, i: nat, name: Bytes)
    requires i < |ents|
    ensures FirstName(ents[..i + 1], name) ==
            if FirstName(ents[..i], name) < 0 && ents[i].name == name then i else FirstName(ents[..i], name)
  {
    var a, b := FirstName(ents[..i], name), FirstName(ents[..i + 1], name);
    if a >= 0 {
      FirstNameIsFirst(ents[..i + 1], name, a);
    }
    if 0 <= b < i {
      FirstNameIsFirst(ents[..i], name, b);
    }
    if ents[i].name == name {
      FirstNameIsFirst(ents[..i + 1], name, i);
    }
  }
}
