/** The padding of an encoded inner hello: section 6.1.3 of RFC 9849. */
module EchPadding {
  import opened Basics
  import opened EchWire
  import opened EchExpand
  import opened EchInner

  /** What the name lacks of the longest name: all of its extension where there is none. */
  function NamePad(name: nat, maxName: nat): nat {
    if name == 0 then 9 + maxName else if name <= maxName then maxName - name else 0
  }

  /** padEncodedInner, on lengths. */
  method PadLength(h: nat, name: nat, maxName: nat) returns (pad: nat)
    requires h > 0
    ensures pad == NamePad(name, maxName) + Round(h + NamePad(name, maxName))
  {
    pad := 0;
    if name != 0 {
      if name <= maxName {
        pad := maxName - name;
      }
    } else {
      pad := 9 + maxName;
    }
    pad := pad + 31 - ((h + pad - 1) % 32);
  }

  /** What is missing to a multiple of 32. */
  function Round(n: nat): (r: nat)
    requires n > 0
    ensures r < 32 && (n + r) % 32 == 0
  {
    31 - (n - 1) % 32
  }

  function PaddedLength(h: nat, name: nat, maxName: nat): nat
    requires h > 0
  {
    h + NamePad(name, maxName) + Round(h + NamePad(name, maxName))
  }

  /** What the name takes in an encoded hello that has its extension. */
  function NameCost(name: nat): nat {
    if name == 0 then 0 else 9 + name
  }

  // ---- The name's share of the encoding ----

  lemma {:induction false} SameCompressed(style: Style, x: Source, name: Name, ids: seq<Word16>)
    ensures Compressed(style, x.(name := name), ids) == Compressed(style, x, ids)
    decreases |ids|
  {
    if ids != [] {
      SameCompressed(style, x, name, ids[..|ids| - 1]);
    }
  }

  ghost function Size(es: seq<Ext>): nat {
    |Exts(es)|
  }

  lemma SizeConcat(a: seq<Ext>, b: seq<Ext>)
    ensures Size(a + b) == Size(a) + Size(b)
  {
    ExtsConcat(a, b);
  }

  lemma OwnSize(style: Style, x: Source, id: Word16)
    ensures Size(Own(style, x, id))
            == Size(Own(style, x.(name := []), id)) + if id == SERVER_NAME then NameCost(|x.name|) else 0
  {
    if id == SERVER_NAME && x.name != [] {
      ExtsOne(NameExt(x.name));
    }
  }

  lemma {:induction false} OwnAllSize(style: Style, x: Source, ids: seq<Word16>)
    requires Different(ids)
    ensures Size(OwnAll(style, x, ids))
            == Size(OwnAll(style, x.(name := []), ids)) + if SERVER_NAME in ids then NameCost(|x.name|) else 0
    decreases |ids|
  {
    if ids != [] {
      var n := |ids| - 1;
      var y := x.(name := []);
      OwnAllSize(style, x, ids[..n]);
      OwnSize(style, x, ids[n]);
      SizeConcat(OwnAll(style, x, ids[..n]), Own(style, x, ids[n]));
      SizeConcat(OwnAll(style, y, ids[..n]), Own(style, y, ids[n]));
      assert ids == ids[..n] + [ids[n]];
      assert SERVER_NAME == ids[n] ==> SERVER_NAME !in ids[..n];
    }
  }

  /** The encoding with a name is longer than without one by the name's extension. */
  lemma InnerSize(style: Style, x: Source, ids: seq<Word16>, psk: Option<Psk>)
    requires Different(ids) && SERVER_NAME in ids && Sized(style, x, ids, psk)
    ensures Sized(style, x.(name := []), ids, psk)
    ensures Size(Inner(style, x, ids, psk).exts)
            == Size(Inner(style, x.(name := []), ids, psk).exts) + NameCost(|x.name|)
  {
    var y := x.(name := []);
    SameCompressed(style, x, [], ids);
    OwnAllSize(style, x, ids);
    var rest := ListExt(Compressed(style, x, ids)) + Tail(psk);
    Regrouped(Lead(style), OwnAll(style, x, ids), ListExt(Compressed(style, x, ids)), Tail(psk));
    Regrouped(Lead(style), OwnAll(style, y, ids), ListExt(Compressed(style, x, ids)), Tail(psk));
  }

  lemma Regrouped(a: seq<Ext>, b: seq<Ext>, c: seq<Ext>, d: seq<Ext>)
    ensures Size(a + b + c + d) == Size(a) + Size(b) + Size(c) + Size(d)
  {
    SizeConcat(a, b);
    SizeConcat(a + b, c);
    SizeConcat(a + b + c, d);
  }

  /** With the rest of the outer hello fixed, the padded encodings of any two names up to the maximum,
      none among them, are equally long, and a multiple of 32. */
  lemma LengthHidesName(style: Style, x: Source, other: Name, ids: seq<Word16>, psk: Option<Psk>, maxName: nat)
    requires Different(ids) && SERVER_NAME in ids
    requires Sized(style, x, ids, psk) && Sized(style, x.(name := other), ids, psk)
    requires |x.name| <= maxName && |other| <= maxName
    requires Fits(Inner(style, x, ids, psk)) && Fits(Inner(style, x.(name := other), ids, psk))
    ensures var a := |HelloBytes(Inner(style, x, ids, psk))|;
            var b := |HelloBytes(Inner(style, x.(name := other), ids, psk))|;
            && a > 0 && b > 0
            && PaddedLength(a, |x.name|, maxName) == PaddedLength(b, |other|, maxName)
            && PaddedLength(a, |x.name|, maxName) % 32 == 0
  {
    InnerSize(style, x, ids, psk);
    InnerSize(style, x.(name := other), ids, psk);
    var base := |HelloBytes(Inner(style, x, ids, psk))| - NameCost(|x.name|);
  }

  /** The padded encoding is the next multiple of 32 after what it would be with a name of the maximum length,
      or with its own name if that is longer. */
  lemma PadsToNext(style: Style, x: Source, ids: seq<Word16>, psk: Option<Psk>, maxName: nat)
    requires Different(ids) && SERVER_NAME in ids && Sized(style, x, ids, psk)
    requires Fits(Inner(style, x, ids, psk))
    ensures Sized(style, x.(name := []), ids, psk) && Fits(Inner(style, x.(name := []), ids, psk))
    ensures var a := |HelloBytes(Inner(style, x, ids, psk))|;
            var bare := |HelloBytes(Inner(style, x.(name := []), ids, psk))|;
            var full := bare + 9 + if |x.name| > maxName then |x.name| else maxName;
            a > 0 && full <= PaddedLength(a, |x.name|, maxName) < full + 32
  {
    InnerSize(style, x, ids, psk);
  }
}
