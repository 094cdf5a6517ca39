/** What a server reads in the inner hello once it is expanded. */
module EchContent {
  import opened Basics
  import opened EchWire
  import opened EchExpand
  import opened EchInner
  import opened EchOffer

  // ---- The expanded hello's extensions ----

  /** Outer extensions by their types. */
  function Copies(ids: seq<Word16>, outer: seq<Ext>): (r: seq<Ext>)
    ensures |r| == |ids| && forall i :: 0 <= i < |r| ==> r[i] == Ext(ids[i], Last(outer, ids[i]))
  {
    seq(|ids|, i requires 0 <= i < |ids| => Ext(ids[i], Last(outer, ids[i])))
  }

  function OwnExts(style: Style, x: Source, outer: seq<Ext>): seq<Ext> {
    Lead(style) + OwnAll(style, x, Types(outer))
  }

  /** The inner hello's own extensions, the outer's that it names, the PSK. */
  function Content(style: Style, x: Source, outer: seq<Ext>, psk: Option<Psk>): seq<Ext>
    requires psk.Some? ==> PskFits(psk.value)
  {
    OwnExts(style, x, outer) + Copies(Compressed(style, x, Types(outer)), outer) + Tail(psk)
  }

  lemma {:induction false} CopiesWritten(ids: seq<Word16>, outer: seq<Ext>)
    ensures WrittenAll(ids, outer) == Exts(Copies(ids, outer))
  {
    if ids != [] {
      CopiesWritten(ids[1..], outer);
      assert Copies(ids, outer)[1..] == Copies(ids[1..], outer);
    }
  }

  lemma {:induction false} ServerConcat(a: seq<Ext>, b: seq<Ext>, inner: seq<Ext>, outer: seq<Ext>)
    ensures ServerExts(a + b, inner, outer) == ServerExts(a, inner, outer) + ServerExts(b, inner, outer)
    decreases |a|
  {
    if a == [] {
      assert a + b == b;
    } else {
      assert (a + b)[1..] == a[1..] + b;
      ServerConcat(a[1..], b, inner, outer);
    }
  }

  /** Extensions that name none of the outer's stay as they are. */
  lemma {:induction false} ServerPlain(es: seq<Ext>, inner: seq<Ext>, outer: seq<Ext>)
    requires Given(es, inner) && forall i :: 0 <= i < |es| ==> es[i].id != OUTER_EXTENSIONS
    ensures ServerExts(es, inner, outer) == Exts(es)
  {
    if es != [] {
      assert Last(inner, es[0].id) == es[0].data;
      ServerPlain(es[1..], inner, outer);
    }
  }

  lemma ServerOne(e: Ext, inner: seq<Ext>, outer: seq<Ext>)
    ensures ServerExts([e], inner, outer) == Piece(e.id, Last(inner, e.id), outer)
  {
    assert [e][1..] == [];
  }

  lemma ServerList(ids: seq<Word16>, inner: seq<Ext>, outer: seq<Ext>)
    requires |ids| < 128 && Given(ListExt(ids), inner)
    ensures ServerExts(ListExt(ids), inner, outer) == Exts(Copies(ids, outer))
  {
    if ids != [] {
      var e := Ext(OUTER_EXTENSIONS, ListData(ids));
      assert ListExt(ids)[0] == e;
      ServerOne(e, inner, outer);
      NamedInList(ids);
      CopiesWritten(ids, outer);
    }
  }

  lemma GivenParts(a: seq<Ext>, b: seq<Ext>, c: seq<Ext>, inner: seq<Ext>)
    requires Given(a + b + c, inner)
    ensures Given(a, inner) && Given(b, inner) && Given(c, inner)
  {
    var whole := a + b + c;
    forall i | 0 <= i < |a| ensures Last(inner, a[i].id) == a[i].data {
      assert whole[i] == a[i];
    }
    forall i | 0 <= i < |b| ensures Last(inner, b[i].id) == b[i].data {
      assert whole[|a| + i] == b[i];
    }
    forall i | 0 <= i < |c| ensures Last(inner, c[i].id) == c[i].data {
      assert whole[|a| + |b| + i] == c[i];
    }
  }

  lemma OwnPlain(style: Style, x: Source, outer: seq<Ext>)
    requires OneOfEach(outer)
    ensures forall i :: 0 <= i < |OwnExts(style, x, outer)| ==>
              OwnExts(style, x, outer)[i].id in {SERVER_NAME, ECH, SUPPORTED_VERSIONS}
  {
    TypesDifferent(outer);
    OwnTypes(style, x, Types(outer));
  }

  /** The server writes the content. */
  lemma ServerWritesContent(style: Style, x: Source, outer: seq<Ext>, psk: Option<Psk>)
    requires OneOfEach(outer) && Sized(style, x, Types(outer), psk)
    ensures Expanded(style, x, outer, psk) == Exts(Content(style, x, outer, psk))
  {
    var own, ids, tail := OwnExts(style, x, outer), Compressed(style, x, Types(outer)), Tail(psk);
    var exts := Inner(style, x, Types(outer), psk).exts;
    TypesDifferent(outer);
    InnerOnce(style, x, Types(outer), psk);
    GivenBack(exts);
    assert exts == own + ListExt(ids) + tail;
    GivenParts(own, ListExt(ids), tail, exts);
    ServerConcat(own + ListExt(ids), tail, exts, outer);
    ServerConcat(own, ListExt(ids), exts, outer);
    OwnPlain(style, x, outer);
    ServerPlain(own, exts, outer);
    ServerList(ids, exts, outer);
    ServerPlain(tail, exts, outer);
    ExtsConcat(own, Copies(ids, outer));
    ExtsConcat(own + Copies(ids, outer), tail);
  }

  /** The hello the server goes on with. */
  function ContentHello(style: Style, x: Source, outer: Hello, psk: Option<Psk>): Hello
    requires Sized(style, x, Types(outer.exts), psk)
  {
    Hello(x.head, outer.sessionID, Words(KeptSuites(style, x.suites)), [0], Content(style, x, outer.exts, psk))
  }

  /** Expanded, the encoding is the hello with the outer session ID, the suites and the content, and a parser
      finds just that in it. */
  lemma ServerSees(style: Style, x: Source, outer: Hello, psk: Option<Psk>, pad: Bytes)
    requires OneOfEach(outer.exts) && Sized(style, x, Types(outer.exts), psk)
    requires Fits(Inner(style, x, Types(outer.exts), psk)) && Fits(ContentHello(style, x, outer, psk))
    ensures var h := ContentHello(style, x, outer, psk);
            && ServerExpand(HelloBytes(Inner(style, x, Types(outer.exts), psk)) + pad, outer.sessionID, outer.exts)
               == Some(HelloBytes(h))
            && var p := Parse(HelloBytes(h));
               p.Some? && p.value.sessionID == outer.sessionID && p.value.exts == h.exts
  {
    var inner := Inner(style, x, Types(outer.exts), psk);
    ServerWritesContent(style, x, outer.exts, psk);
    ServerReads(inner, pad, outer.sessionID, outer.exts);
    OuterParses(ContentHello(style, x, outer, psk));
  }

  // ---- What is in it ----

  /** The data of a server_name extension with one host name (section 3 of RFC 6066). */
  ghost predicate IsName(data: Bytes, name: Bytes) {
    && |data| == 5 + |name| && Read16(data, 0) == 3 + |name| && data[2] == 0
    && Read16(data, 3) == |name| && data[5..] == name
  }

  /** What a supported_versions extension may be. */
  ghost predicate IsVersions(style: Style, x: Source, outer: seq<Ext>, e: Ext) {
    if style.Boring? && Only13(x.versions) then e in outer
    else exists first: seq<Word16> :: Leads(style, x.versions, first) && ListsVersions(e.data, first + [TLS13])
  }

  ghost predicate Leads(style: Style, versions: seq<Word16>, first: seq<Word16>) {
    if style.Boring? then IsFirstGrease(versions, first) else first == []
  }

  /** What an extension of the expanded hello holds. */
  ghost predicate Holds(style: Style, x: Source, outer: seq<Ext>, psk: Option<Psk>, e: Ext)
    requires psk.Some? ==> PskFits(psk.value)
  {
    if e.id == SERVER_NAME then IsName(e.data, x.name)
    else if e.id == ECH then e.data == [1]
    else if e.id == SUPPORTED_VERSIONS then IsVersions(style, x, outer, e)
    else if e.id == PRE_SHARED_KEY then psk.Some? && e == PskExt(psk.value)
    else e in outer
  }

  /** Which types are there. */
  ghost predicate Due(style: Style, x: Source, outer: seq<Ext>, psk: Option<Psk>, id: Word16) {
    if id == SERVER_NAME then x.name != [] && Has(outer, id)
    else if id == ECH then style.Nss? || Has(outer, id)
    else if id == SUPPORTED_VERSIONS then Has(outer, id)
    else if id == PRE_SHARED_KEY then psk.Some?
    else Has(outer, id) && id !in {11, 21, 23, 35, 0xff01} && !(style.Nss? && Grease(id))
  }

  lemma NameIs(name: Name)
    ensures IsName(NameExt(name).data, name)
  {
    var data := NameExt(name).data;
    assert data == U16(3 + |name|) + ([0] + (U16(|name|) + name));
    assert data[5..] == name;
  }

  lemma {:induction false} OwnMember(style: Style, x: Source, ids: seq<Word16>, e: Ext)
    ensures e in OwnAll(style, x, ids) <==> e.id in ids && e in Own(style, x, e.id)
    decreases |ids|
  {
    if ids != [] {
      var n := |ids| - 1;
      OwnMember(style, x, ids[..n], e);
      assert ids == ids[..n] + [ids[n]];
      assert e in Own(style, x, ids[n]) ==> e.id == ids[n];
    }
  }

  lemma {:induction false} CompressedMember(style: Style, x: Source, ids: seq<Word16>, id: Word16)
    ensures id in Compressed(style, x, ids) <==> id in ids && Compressible(style, x, id)
    decreases |ids|
  {
    if ids != [] {
      var n := |ids| - 1;
      CompressedMember(style, x, ids[..n], id);
      assert ids == ids[..n] + [ids[n]];
    }
  }

  lemma CopiesMember(ids: seq<Word16>, outer: seq<Ext>, e: Ext)
    ensures e in Copies(ids, outer) <==> e.id in ids && e.data == Last(outer, e.id)
  {
    if e.id in ids && e.data == Last(outer, e.id) {
      var i :| 0 <= i < |ids| && ids[i] == e.id;
      assert Copies(ids, outer)[i] == e;
    }
  }

  lemma OuterMember(outer: seq<Ext>, e: Ext)
    requires OneOfEach(outer)
    ensures e in outer <==> Has(outer, e.id) && e.data == Last(outer, e.id)
  {
    if e in outer {
      var i :| 0 <= i < |outer| && outer[i] == e;
      LastIs(outer, i);
    } else if Has(outer, e.id) {
      var i :| 0 <= i < |outer| && outer[i].id == e.id;
      LastIs(outer, i);
      assert outer[i] in outer;
    }
  }

  lemma ContentMember(style: Style, x: Source, outer: seq<Ext>, psk: Option<Psk>, e: Ext)
    requires OneOfEach(outer) && (psk.Some? ==> PskFits(psk.value))
    ensures e in Content(style, x, outer, psk) <==>
            || e in Lead(style)
            || (Has(outer, e.id) && e in Own(style, x, e.id))
            || (e in outer && Compressible(style, x, e.id))
            || e in Tail(psk)
  {
    var ids := Types(outer);
    TypesDifferent(outer);
    OwnMember(style, x, ids, e);
    CompressedMember(style, x, ids, e.id);
    CopiesMember(Compressed(style, x, ids), outer, e);
    OuterMember(outer, e);
  }

  lemma OwnHolds(style: Style, x: Source, outer: seq<Ext>, psk: Option<Psk>, e: Ext)
    requires (psk.Some? ==> PskFits(psk.value)) && e in Own(style, x, e.id)
    ensures Holds(style, x, outer, psk, e)
  {
    if e.id == SERVER_NAME {
      NameIs(x.name);
    } else if e.id == SUPPORTED_VERSIONS {
      var first := OwnVersions(style, x.versions);
      assert Leads(style, x.versions, first) && ListsVersions(e.data, first + [TLS13]);
    }
  }

  /** Each extension of the expanded hello holds what it should: the name inside, the marker of an inner hello,
      the versions, the PSK; and any other is the outer hello's as it is. */
  lemma ContentHolds(style: Style, x: Source, outer: seq<Ext>, psk: Option<Psk>, e: Ext)
    requires OneOfEach(outer) && (psk.Some? ==> PskFits(psk.value)) && e in Content(style, x, outer, psk)
    ensures Holds(style, x, outer, psk, e)
  {
    ContentMember(style, x, outer, psk, e);
    if e in Own(style, x, e.id) {
      OwnHolds(style, x, outer, psk, e);
    }
  }

  lemma HasMember(es: seq<Ext>, e: Ext)
    requires e in es
    ensures Has(es, e.id)
  {
    var i :| 0 <= i < |es| && es[i] == e;
  }

  lemma MemberOf(es: seq<Ext>, id: Word16) returns (e: Ext)
    requires Has(es, id)
    ensures e in es && e.id == id
  {
    var i :| 0 <= i < |es| && es[i].id == id;
    e := es[i];
  }

  /** The types in it are exactly those due. */
  lemma ContentTypes(style: Style, x: Source, outer: seq<Ext>, psk: Option<Psk>, id: Word16)
    requires OneOfEach(outer) && (psk.Some? ==> PskFits(psk.value))
    ensures Has(Content(style, x, outer, psk), id) <==> Due(style, x, outer, psk, id)
  {
    var all := Content(style, x, outer, psk);
    if Has(all, id) {
      var e := MemberOf(all, id);
      ContentMember(style, x, outer, psk, e);
      if e in outer {
        HasMember(outer, e);
      }
    }
    if Due(style, x, outer, psk, id) {
      var e := DueMember(style, x, outer, psk, id);
      ContentMember(style, x, outer, psk, e);
      HasMember(all, e);
    }
  }

  lemma DueMember(style: Style, x: Source, outer: seq<Ext>, psk: Option<Psk>, id: Word16) returns (e: Ext)
    requires (psk.Some? ==> PskFits(psk.value)) && Due(style, x, outer, psk, id)
    ensures e.id == id
    ensures e in Lead(style) || (Has(outer, id) && e in Own(style, x, id))
            || (e in outer && Compressible(style, x, id)) || e in Tail(psk)
  {
    if id == PRE_SHARED_KEY {
      e := PskExt(psk.value);
    } else if Own(style, x, id) != [] {
      e := Own(style, x, id)[0];
    } else if id == ECH {
      e := MARKER;
    } else {
      e := MemberOf(outer, id);
    }
  }

  lemma JoinOnce(a: seq<Ext>, b: seq<Ext>)
    requires OneOfEach(a) && OneOfEach(b) && forall id :: !(Has(a, id) && Has(b, id))
    ensures OneOfEach(a + b)
  {
    forall i, j | 0 <= i < |a| && 0 <= j < |b| ensures a[i].id != b[j].id {
      assert Has(a, a[i].id) && Has(b, b[j].id);
    }
  }

  lemma CopiesOnce(ids: seq<Word16>, outer: seq<Ext>)
    requires Different(ids)
    ensures OneOfEach(Copies(ids, outer))
    ensures forall id :: Has(Copies(ids, outer), id) ==> id in ids
  {}

  lemma HasJoined(a: seq<Ext>, b: seq<Ext>, id: Word16)
    requires Has(a + b, id)
    ensures Has(a, id) || Has(b, id)
  {
    var e := MemberOf(a + b, id);
    if e in a {
      HasMember(a, e);
    } else {
      HasMember(b, e);
    }
  }

  /** No type twice. */
  lemma ContentOnce(style: Style, x: Source, outer: seq<Ext>, psk: Option<Psk>)
    requires OneOfEach(outer) && (psk.Some? ==> PskFits(psk.value))
    ensures OneOfEach(Content(style, x, outer, psk))
  {
    var ids := Types(outer);
    var own, copies := OwnExts(style, x, outer), Copies(Compressed(style, x, ids), outer);
    TypesDifferent(outer);
    OwnOnce(style, x, ids);
    CompressedDifferent(style, x, ids);
    CopiesOnce(Compressed(style, x, ids), outer);
    forall id | Has(own, id) ensures !Has(copies, id) {
      CompressedMember(style, x, ids, id);
      var e := MemberOf(own, id);
      OwnMember(style, x, ids, e);
    }
    JoinOnce(own, copies);
    forall id | Has(own + copies, id) ensures id != PRE_SHARED_KEY {
      HasJoined(own, copies, id);
      CompressedMember(style, x, ids, id);
    }
    JoinOnce(own + copies, Tail(psk));
  }

  /** The inner hello's own extensions come in the order in which the outer has theirs. */
  lemma {:induction false} OwnInOrder(style: Style, x: Source, ids: seq<Word16>) returns (at: seq<nat>)
    ensures |at| == |OwnAll(style, x, ids)| && Ascending(at, |ids|)
    ensures forall i :: 0 <= i < |at| ==> OwnAll(style, x, ids)[i].id == ids[at[i]]
    decreases |ids|
  {
    at := [];
    if ids != [] {
      var n := |ids| - 1;
      at := OwnInOrder(style, x, ids[..n]);
      if Own(style, x, ids[n]) != [] {
        at := at + [n];
      }
    }
  }

  /** Where the outer hello offers TLS 1.3, so does the inner one, and no older version. */
  lemma OffersTls13(style: Style, x: Source, outer: seq<Ext>, psk: Option<Psk>, e: Ext) returns (list: seq<Word16>)
    requires OneOfEach(outer) && (psk.Some? ==> PskFits(psk.value))
    requires e in Content(style, x, outer, psk) && e.id == SUPPORTED_VERSIONS
    requires TLS13 in x.versions
    requires forall o :: o in outer && o.id == SUPPORTED_VERSIONS ==> ListsVersions(o.data, x.versions)
    ensures ListsVersions(e.data, list) && TLS13 in list
    ensures forall v :: v in list ==> Grease(v) || v >= TLS13
  {
    ContentHolds(style, x, outer, psk, e);
    if style.Boring? && Only13(x.versions) {
      list := x.versions;
    } else {
      var first: seq<Word16> :| Leads(style, x.versions, first) && ListsVersions(e.data, first + [TLS13]);
      list := first + [TLS13];
    }
  }
}
