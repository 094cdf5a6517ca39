/** The inner hello as BoringSSL and as NSS encode it from the outer one: which extensions it holds,
    its padding, and the binder of a PSK moved into it. */
module EchInner {
  import opened Basics
  import opened EchWire
  import opened EchExpand

  const SERVER_NAME: Word16 := 0
  const PADDING: Word16 := 21
  const PRE_SHARED_KEY: Word16 := 41
  const SUPPORTED_VERSIONS: Word16 := 43
  const ECH: Word16 := 0xfe0d
  const TLS13: Word16 := 0x0304

  /** Point formats, extended master secret, session ticket, renegotiation info: TLS 1.2 only; and
      what belongs to the outer hello alone. */
  const DROPPED: set<Word16> := {11, 23, 35, 0xff01, PADDING, PRE_SHARED_KEY}

  datatype Style = Boring | Nss

  type Name = s: Bytes | |s| < 0xfff0

  /** What the encoders take from the handshake: version and random, the name inside, and the outer
      hello's cipher suites and versions. */
  datatype Source = Source(head: Bytes, name: Name, suites: seq<Word16>, versions: seq<Word16>)

  predicate Grease(v: Word16) {
    v / 256 == v % 256 && v % 16 == 10
  }

  // ---- The parts ----

  function Words(ids: seq<Word16>): Bytes {
    TypesList(ids)
  }

  predicate Only13(versions: seq<Word16>) {
    forall i :: 0 <= i < |versions| ==> Grease(versions[i]) || versions[i] >= TLS13
  }

  function FirstGrease(versions: seq<Word16>): seq<Word16> {
    if versions == [] then [] else if Grease(versions[0]) then [versions[0]] else FirstGrease(versions[1..])
  }

  function KeptSuites(style: Style, suites: seq<Word16>): seq<Word16> {
    if style.Nss? || suites == [] then suites
    else (if Grease(suites[0]) || suites[0] / 256 == 0x13 then [suites[0]] else []) + KeptSuites(style, suites[1..])
  }

  function NameExt(name: Name): Ext {
    Ext(SERVER_NAME, Prefixed16([0] + Prefixed16(name)))
  }

  function VersionsExt(style: Style, versions: seq<Word16>): Ext {
    var list := (if style.Boring? then FirstGrease(versions) else []) + [TLS13];
    FirstGreaseSize(versions);
    TypesListSize(list);
    Ext(SUPPORTED_VERSIONS, Prefixed8(Words(list)))
  }

  lemma {:induction false} FirstGreaseSize(versions: seq<Word16>)
    ensures |FirstGrease(versions)| <= 1
  {
    if versions != [] && !Grease(versions[0]) {
      FirstGreaseSize(versions[1..]);
    }
  }

  const MARKER := Ext(ECH, [1])

  /** What the inner hello has of its own where the outer has an extension of this type. */
  function Own(style: Style, x: Source, id: Word16): seq<Ext> {
    if id == SERVER_NAME then if x.name == [] then [] else [NameExt(x.name)]
    else if id == ECH then if style.Boring? then [MARKER] else []
    else if id == SUPPORTED_VERSIONS then
      if style.Boring? && Only13(x.versions) then [] else [VersionsExt(style, x.versions)]
    else []
  }

  /** Whether the inner hello only names the outer extension of this type. */
  predicate Compressible(style: Style, x: Source, id: Word16) {
    && id != SERVER_NAME && id != ECH && id !in DROPPED
    && (id == SUPPORTED_VERSIONS ==> style.Boring? && Only13(x.versions))
    && (style.Nss? ==> !Grease(id))
  }

  function OwnAll(style: Style, x: Source, ids: seq<Word16>): seq<Ext> {
    if ids == [] then [] else OwnAll(style, x, ids[..|ids| - 1]) + Own(style, x, ids[|ids| - 1])
  }

  function Compressed(style: Style, x: Source, ids: seq<Word16>): seq<Word16> {
    if ids == [] then []
    else Compressed(style, x, ids[..|ids| - 1])
         + if Compressible(style, x, ids[|ids| - 1]) then [ids[|ids| - 1]] else []
  }

  function Lead(style: Style): seq<Ext> {
    if style.Nss? then [MARKER] else []
  }

  function ListExt(ids: seq<Word16>): seq<Ext>
    requires |ids| < 128
  {
    if ids == [] then [] else [Ext(OUTER_EXTENSIONS, ListData(ids))]
  }

  /** A PSK: identities as they stand in the extension, and the binder. */
  datatype Psk = Psk(identities: Data16, binder: Bytes)

  predicate PskFits(p: Psk) {
    |p.binder| < 255 && |p.identities| + |p.binder| + 8 < 0x1_0000
  }

  /** All of the extension's data before the binder's own bytes. */
  function PskLead(p: Psk): Bytes
    requires PskFits(p)
  {
    Prefixed16(p.identities) + U16(1 + |p.binder|) + [|p.binder|]
  }

  function PskExt(p: Psk): Ext
    requires PskFits(p)
  {
    Ext(PRE_SHARED_KEY, PskLead(p) + p.binder)
  }

  function Tail(psk: Option<Psk>): seq<Ext>
    requires psk.Some? ==> PskFits(psk.value)
  {
    if psk.None? then [] else [PskExt(psk.value)]
  }

  /** The encoded inner hello before padding; a PSK only in BoringSSL's. */
  function Inner(style: Style, x: Source, ids: seq<Word16>, psk: Option<Psk>): Hello
    requires Sized(style, x, ids, psk)
  {
    Hello(x.head, [], Words(KeptSuites(style, x.suites)), [0],
          Lead(style) + OwnAll(style, x, ids) + ListExt(Compressed(style, x, ids)) + Tail(psk))
  }

  /** The loop over the outer hello's types. */
  method Sort(style: Style, x: Source, ids: seq<Word16>) returns (own: seq<Ext>, compressed: seq<Word16>)
    ensures own == OwnAll(style, x, ids) && compressed == Compressed(style, x, ids)
  {
    own, compressed := [], [];
    var i := 0;
    while i < |ids|
      invariant i <= |ids| && own == OwnAll(style, x, ids[..i]) && compressed == Compressed(style, x, ids[..i])
    {
      assert ids[..i + 1][..i] == ids[..i];
      var id := ids[i];
      if id == SERVER_NAME {
        if x.name != [] {
          own := own + [NameExt(x.name)];
        }
      } else if id == ECH {
        if style.Boring? {
          own := own + [MARKER];
        }
      } else if id == SUPPORTED_VERSIONS {
        if style.Boring? && Only13(x.versions) {
          compressed := compressed + [id];
        } else {
          own := own + [VersionsExt(style, x.versions)];
        }
      } else if id !in DROPPED && !(style.Nss? && Grease(id)) {
        compressed := compressed + [id];
      }
      i := i + 1;
    }
    assert ids[..i] == ids;
  }

  // ---- Which outer extensions are named ----

  ghost predicate Different(ids: seq<Word16>) {
    forall i, j :: 0 <= i < j < |ids| ==> ids[i] != ids[j]
  }

  ghost predicate Ascending(at: seq<nat>, n: nat) {
    && (forall i :: 0 <= i < |at| ==> at[i] < n)
    && forall i, j :: 0 <= i < j < |at| ==> at[i] < at[j]
  }

  /** The names are a subsequence of the outer hello's types, never the ECH extension, and all of
      them that may be named. */
  lemma {:induction false} CompressedInOrder(style: Style, x: Source, ids: seq<Word16>) returns (at: seq<nat>)
    ensures |at| == |Compressed(style, x, ids)| && Ascending(at, |ids|)
    ensures forall i :: 0 <= i < |at| ==> Compressed(style, x, ids)[i] == ids[at[i]]
    ensures forall i :: 0 <= i < |at| ==> Compressible(style, x, ids[at[i]]) && ids[at[i]] != ECH
    ensures forall i :: 0 <= i < |ids| && Compressible(style, x, ids[i]) ==> i in at
    decreases |ids|
  {
    if ids == [] {
      at := [];
    } else {
      var n := |ids| - 1;
      at := CompressedInOrder(style, x, ids[..n]);
      if Compressible(style, x, ids[n]) {
        at := at + [n];
      }
    }
  }

  lemma CompressedDifferent(style: Style, x: Source, ids: seq<Word16>)
    requires Different(ids)
    ensures Different(Compressed(style, x, ids))
    ensures forall id :: id in Compressed(style, x, ids) ==> id in ids
  {
    var at := CompressedInOrder(style, x, ids);
  }

  /** Own extensions are of the types they stand for. */
  lemma {:induction false} OwnTypes(style: Style, x: Source, ids: seq<Word16>)
    requires Different(ids)
    ensures OneOfEach(OwnAll(style, x, ids))
    ensures forall i :: 0 <= i < |OwnAll(style, x, ids)| ==>
              var id := OwnAll(style, x, ids)[i].id;
              id in ids && id in {SERVER_NAME, ECH, SUPPORTED_VERSIONS} && (style.Nss? ==> id != ECH)
    decreases |ids|
  {
    if ids != [] {
      OwnTypes(style, x, ids[..|ids| - 1]);
      assert forall i :: 0 <= i < |ids| - 1 ==> ids[i] != ids[|ids| - 1];
    }
  }

  lemma TypesDifferent(es: seq<Ext>)
    ensures Different(Types(es)) <==> OneOfEach(es)
    ensures forall id :: id in Types(es) <==> Has(es, id)
  {
    forall id ensures id in Types(es) <==> Has(es, id) {
      if id in Types(es) {
        var i :| 0 <= i < |es| && Types(es)[i] == id;
        assert es[i].id == id;
      }
      if Has(es, id) {
        var i :| 0 <= i < |es| && es[i].id == id;
        assert Types(es)[i] == id;
      }
    }
    if OneOfEach(es) {
      forall i, j | 0 <= i < j < |es| ensures Types(es)[i] != Types(es)[j] {}
    }
    if Different(Types(es)) {
      forall i, j | 0 <= i < j < |es| ensures es[i].id != es[j].id {
        assert Types(es)[i] != Types(es)[j];
      }
    }
  }

  /** All of it fits its length prefixes, but perhaps for the extensions together. */
  predicate Sized(style: Style, x: Source, ids: seq<Word16>, psk: Option<Psk>) {
    && |Compressed(style, x, ids)| < 128 && |Words(KeptSuites(style, x.suites))| < 0x1_0000
    && (psk.Some? ==> PskFits(psk.value))
  }

  lemma AppendOne(es: seq<Ext>, tail: seq<Ext>)
    requires OneOfEach(es) && |tail| <= 1 && (tail != [] ==> !Has(es, tail[0].id))
    ensures OneOfEach(es + tail)
    ensures forall id :: Has(es + tail, id) ==> Has(es, id) || (tail != [] && tail[0].id == id)
  {
    forall id | Has(es + tail, id)
      ensures Has(es, id) || (tail != [] && tail[0].id == id)
    {
      var i :| 0 <= i < |es + tail| && (es + tail)[i].id == id;
      if i < |es| {
        assert es[i].id == id;
      }
    }
  }

  /** The types in the inner hello before the list: three at most, each once. */
  lemma OwnOnce(style: Style, x: Source, ids: seq<Word16>)
    requires Different(ids)
    ensures var es := Lead(style) + OwnAll(style, x, ids);
            OneOfEach(es) && forall id :: Has(es, id) ==> id in {SERVER_NAME, ECH, SUPPORTED_VERSIONS}
  {
    OwnTypes(style, x, ids);
  }

  /** Every type once in the inner hello. */
  lemma InnerOnce(style: Style, x: Source, ids: seq<Word16>, psk: Option<Psk>)
    requires Different(ids) && Sized(style, x, ids, psk)
    ensures OneOfEach(Inner(style, x, ids, psk).exts)
  {
    var es := Lead(style) + OwnAll(style, x, ids);
    var list := ListExt(Compressed(style, x, ids));
    OwnOnce(style, x, ids);
    AppendOne(es, list);
    AppendOne(es + list, Tail(psk));
  }

  lemma ListExpandable(ids: seq<Word16>, outer: seq<Ext>)
    requires |ids| < 128 && forall id :: id in ids ==> Has(outer, id)
    ensures AllExpandable(ListExt(ids), outer)
  {
    if ids != [] {
      assert forall i :: 0 <= i < |ids| ==> Has(outer, ids[i]);
    }
  }

  lemma PlainExpandable(es: seq<Ext>, outer: seq<Ext>)
    requires forall id :: Has(es, id) ==> id != OUTER_EXTENSIONS
    ensures AllExpandable(es, outer)
  {
    forall i | 0 <= i < |es|
      ensures Expandable(es[i], outer)
    {
      assert Has(es, es[i].id);
    }
  }

  lemma InnerExpandable(style: Style, x: Source, outer: seq<Ext>, psk: Option<Psk>)
    requires OneOfEach(outer) && Sized(style, x, Types(outer), psk)
    ensures AllExpandable(Inner(style, x, Types(outer), psk).exts, outer)
  {
    var ids := Types(outer);
    TypesDifferent(outer);
    OwnOnce(style, x, ids);
    PlainExpandable(Lead(style) + OwnAll(style, x, ids), outer);
    CompressedDifferent(style, x, ids);
    ListExpandable(Compressed(style, x, ids), outer);
    PlainExpandable(Tail(psk), outer);
    JoinExpandable(Lead(style) + OwnAll(style, x, ids), ListExt(Compressed(style, x, ids)), outer);
    JoinExpandable(Lead(style) + OwnAll(style, x, ids) + ListExt(Compressed(style, x, ids)), Tail(psk), outer);
  }

  lemma JoinExpandable(a: seq<Ext>, b: seq<Ext>, outer: seq<Ext>)
    requires AllExpandable(a, outer) && AllExpandable(b, outer)
    ensures AllExpandable(a + b, outer)
  {}

  /** Whatever the style, the outer hello can fill in what the inner one names. */
  lemma InnerFillable(style: Style, x: Source, outer: seq<Ext>, psk: Option<Psk>)
    requires OneOfEach(outer) && Sized(style, x, Types(outer), psk) && Fits(Inner(style, x, Types(outer), psk))
    ensures Fillable(Inner(style, x, Types(outer), psk), outer)
  {
    TypesDifferent(outer);
    InnerOnce(style, x, Types(outer), psk);
    InnerExpandable(style, x, outer, psk);
  }

  /** The expanded extensions. */
  function Expanded(style: Style, x: Source, outer: seq<Ext>, psk: Option<Psk>): Bytes
    requires Sized(style, x, Types(outer), psk)
  {
    var exts := Inner(style, x, Types(outer), psk).exts;
    ServerExts(exts, exts, outer)
  }

  /** So for either style the client's expansion of its encoding is a handshake header and the
      server's expansion of it padded, against the outer hello it parsed. */
  lemma StylesAgree(style: Style, x: Source, outer: Hello, psk: Option<Psk>, clientPad: Bytes, serverPad: Bytes)
    requires OneOfEach(outer.exts) && Fits(outer)
    requires Sized(style, x, Types(outer.exts), psk) && Fits(Inner(style, x, Types(outer.exts), psk))
    ensures Parse(HelloBytes(outer)).Some?
    ensures var encoded := HelloBytes(Inner(style, x, Types(outer.exts), psk));
            var seen := Parse(HelloBytes(outer)).value;
            && |seen.sessionID| < 256
            && var client := ClientExpand(encoded + clientPad, outer.sessionID, outer.exts);
               && HeaderAnd(client, ServerExpand(encoded + serverPad, seen.sessionID, seen.exts))
               && (client.Some? <==> |Expanded(style, x, outer.exts, psk)| < 0x1_0000)
  {
    InnerFillable(style, x, outer.exts, psk);
    OuterParses(outer);
    ExpansionsAgree(Inner(style, x, Types(outer.exts), psk), clientPad, serverPad, outer.sessionID, outer.exts);
  }
}
