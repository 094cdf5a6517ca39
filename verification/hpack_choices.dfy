/** What the choices of the encoder mean: which entry a name refers to, which fields go indexed, and
    which are stored. */
module HpackChoices {
  import opened Basics
  import opened HpackVarInt
  import opened HpackTable
  import opened HpackTableLaws
  import opened HpackCodec

  ghost predicate HasName(statics: seq<Entry>, ents: seq<Entry>, i: nat, name: Bytes) {
    At(statics, ents, i).Some? && At(statics, ents, i).value.name == name
  }

  /** The three name rules in the one index space of both tables. Chrome's is the lowest index
      with the name; Firefox's the highest, the last match of a scan; Go's the highest static
      index, else the lowest dynamic one. Each refers to nothing exactly when no entry has it. */
  lemma NameRuleMeaning(cfg: Config, t: Table, f: Field, i: nat)
    requires Choose(cfg, t, f).Literal? && !SearchTable(cfg.statics, t.ents, f).1
    requires HasName(cfg.statics, t.ents, i, f.name)
    ensures var idx := Choose(cfg, t, f).idx;
            && HasName(cfg.statics, t.ents, idx, f.name)
            && (cfg.nameRef == NameFirstStatic ==> idx <= i)
            && (cfg.nameRef == NameScan ==> idx >= i)
            && (cfg.nameRef == NameGo ==>
                 if i <= |cfg.statics| then i <= idx <= |cfg.statics|
                 else idx <= i)
  {
    ChoiceSound(cfg, t, f);
    if i <= |cfg.statics| {
      LastNameIsLast(cfg.statics, f.name, i - 1);
      FirstNameIsFirst(cfg.statics, f.name, i - 1);
    } else {
      var k := |t.ents| - (i - |cfg.statics|);
      LastNameIsLast(t.ents, f.name, k);
      FirstNameIsFirst(t.ents, f.name, k);
      var s := LastName(cfg.statics, f.name);
      if s >= 0 {
        FirstNameIsFirst(cfg.statics, f.name, s);
      }
    }
  }

  /** A literal refers to nothing exactly when no entry has its name. */
  lemma NameRuleNothing(cfg: Config, t: Table, f: Field)
    requires Choose(cfg, t, f).Literal?
    ensures Choose(cfg, t, f).idx == 0 <==> forall i: nat :: !HasName(cfg.statics, t.ents, i, f.name)
  {
    ChoiceSound(cfg, t, f);
    var idx := Choose(cfg, t, f).idx;
    if idx > 0 {
      assert HasName(cfg.statics, t.ents, idx, f.name);
    } else if i: nat :| HasName(cfg.statics, t.ents, i, f.name) {
      if SearchTable(cfg.statics, t.ents, f).1 {
        FoundNamed(cfg, t, f);
      }
      NameRuleMeaning(cfg, t, f, i);
    }
  }

  /** A field found whole is referred to where it was found, literal or not. */
  lemma FoundNamed(cfg: Config, t: Table, f: Field)
    requires SearchTable(cfg.statics, t.ents, f).1
    ensures var idx := Choose(cfg, t, f).idx; idx > 0 && At(cfg.statics, t.ents, idx) == Some(f.Entry())
  {}

  /** Of several entries equal to the field, that is the last static one, else the newest dynamic one,
      whether it goes indexed or as a literal over it. */
  lemma FoundPlace(cfg: Config, t: Table, f: Field, i: nat)
    requires !f.sensitive && At(cfg.statics, t.ents, i) == Some(f.Entry())
    ensures var idx := Choose(cfg, t, f).idx;
            && At(cfg.statics, t.ents, idx) == Some(f.Entry())
            && (if i <= |cfg.statics| then i <= idx <= |cfg.statics| else idx <= i)
  {
    if i <= |cfg.statics| {
      LastEntryIsLast(cfg.statics, f.Entry(), i - 1);
    } else {
      LastEntryIsLast(t.ents, f.Entry(), |t.ents| - (i - |cfg.statics|));
    }
    FoundNamed(cfg, t, f);
  }

  /** Some entry of either table is the field. */
  ghost predicate Held(cfg: Config, t: Table, f: Field) {
    exists i: nat :: At(cfg.statics, t.ents, i) == Some(f.Entry())
  }

  /** A field goes as an index exactly when some entry of either table equals it and neither the
      field nor the policy forbids it. */
  lemma IndexedExactly(cfg: Config, t: Table, f: Field)
    ensures Choose(cfg, t, f).Indexed? <==>
            && !f.sensitive && cfg.policy(f.name, f.value) !in {IndexLiteral, IndexNever}
            && Held(cfg, t, f)
  {
    ChoiceSound(cfg, t, f);
    forall i: nat | At(cfg.statics, t.ents, i) == Some(f.Entry())
      ensures f.sensitive || SearchTable(cfg.statics, t.ents, f).1
    {
      if i <= |cfg.statics| {
        LastEntryIsLast(cfg.statics, f.Entry(), i - 1);
      } else {
        LastEntryIsLast(t.ents, f.Entry(), |t.ents| - (i - |cfg.statics|));
      }
    }
  }

  /** A field may enter a dynamic table only if the policy lets it be indexed and it is not sensitive. */
  predicate MayBeStored(cfg: Config, f: Field) {
    !f.sensitive && cfg.policy(f.name, f.value) in {IndexDefault, IndexIncremental}
  }

  /** A field is added exactly when no table holds it, it may be stored, and it fits; then it is the
      newest entry of the table it leaves. */
  lemma StoredExactly(cfg: Config, t: Table, f: Field)
    requires t.Exact() && t.size + |f.name| + |f.value| + 32 < 0x1_0000_0000
    ensures var u := FieldTable(cfg, t, f);
            if !Held(cfg, t, f) && MayBeStored(cfg, f) && |f.name| + |f.value| + 32 <= t.maxSize then
              u.ents != [] && u.ents[|u.ents| - 1] == f.Entry()
            else u == t
  {
    IndexedExactly(cfg, t, f);
    var r := Choose(cfg, t, f);
    if r.Literal? && r.indexing {
      assert MayBeStored(cfg, f);
      AddExact(t, f.Entry());
    }
  }

  /** Nothing that must not be indexed gets into the table: after any block its entries are
      old ones or fields the policy lets in. */
  lemma {:induction false} OnlyIndexableStored(cfg: Config, t: Table, fs: seq<Field>, e: Entry)
    requires e in BlockTable(cfg, t, fs).ents
    ensures e in t.ents || exists f :: f in fs && MayBeStored(cfg, f) && f.Entry() == e
    decreases |fs|
  {
    if fs != [] {
      var f := fs[0];
      var next := FieldTable(cfg, t, f);
      OnlyIndexableStored(cfg, next, fs[1..], e);
      if e in next.ents && e !in t.ents {
        assert e == f.Entry() && MayBeStored(cfg, f) && f in fs;
      }
    }
  }
}
