/** An encoded inner hello expanded by the client, which reads it off the front, and by the server,
    which reads it by position: section 5.1 of RFC 9849. */
module EchExpand {
  import opened Basics
  import opened EchWire

  const OUTER_EXTENSIONS: Word16 := 0xfd00

  // ---- The server ----

  /** The map the parser fills keeps the last extension of each type; a missing one reads as empty. */
  function Last(es: seq<Ext>, id: Word16): Data16 {
    if es == [] then [] else if es[|es| - 1].id == id then es[|es| - 1].data else Last(es[..|es| - 1], id)
  }

  /** The types in the data of ech_outer_extensions, by position. */
  function Named(v: Bytes, j: nat): seq<Word16>
    requires |v| > 0
    decreases |v| - j
  {
    var n: nat := v[0];
    if j < n + 1 && j + 1 < |v| then [Read16(v, j)] + Named(v, j + 2) else []
  }

  /** Outer extensions written out by their types. */
  function WrittenAll(ids: seq<Word16>, outer: seq<Ext>): Bytes {
    if ids == [] then [] else ExtBytes(Ext(ids[0], Last(outer, ids[0]))) + WrittenAll(ids[1..], outer)
  }

  function Piece(id: Word16, data: Data16, outer: seq<Ext>): Bytes {
    if id != OUTER_EXTENSIONS then ExtBytes(Ext(id, data))
    else if data == [] then [] else WrittenAll(Named(data, 1), outer)
  }

  /** The inner hello's extensions in order, each by its map, the compressed ones in place. */
  function ServerExts(order: seq<Ext>, inner: seq<Ext>, outer: seq<Ext>): Bytes {
    if order == [] then []
    else Piece(order[0].id, Last(inner, order[0].id), outer) + ServerExts(order[1..], inner, outer)
  }

  /** What expand writes: the head, the outer session ID, the middle as it came, the extensions. */
  function ServerWrites(encoded: Bytes, p: Parsed, sessionID: Data8, exts: Bytes): Option<Bytes>
    requires HEAD < p.middle <= p.extStart <= |encoded|
  {
    if |exts| >= 0x1_0000 then None
    else Some(encoded[..HEAD] + Prefixed8(sessionID) + encoded[p.middle..p.extStart] + Prefixed16(exts))
  }

  /** expand: from the encoded hello's bytes and the parsed outer one. */
  function ServerExpand(encoded: Bytes, sessionID: Data8, outer: seq<Ext>): Option<Bytes> {
    match Parse(encoded)
    case None => None
    case Some(p) => ServerWrites(encoded, p, sessionID, ServerExts(p.exts, p.exts, outer))
  }

  // ---- The client ----

  /** A length-prefixed string off the front, and what is left. */
  function Take8(s: Bytes): Option<(Data8, Bytes)> {
    if |s| < 1 then None
    else
      var n: nat := s[0];
      if |s| < 1 + n then None else Some((s[1..1 + n], s[1 + n..]))
  }

  function Take16(s: Bytes): Option<(Data16, Bytes)> {
    if |s| < 2 then None
    else
      var n := Read16(s, 0);
      if |s| < 2 + n then None else Some((s[2..2 + n], s[2 + n..]))
  }

  /** The outer extension as it goes out: the first of its type. */
  function First(es: seq<Ext>, id: Word16): Option<Ext> {
    if es == [] then None else if es[0].id == id then Some(es[0]) else First(es[1..], id)
  }

  /** The outer extensions a list of types names; none if the outer lacks one. */
  function Copied(list: Bytes, outer: seq<Ext>): Option<Bytes> {
    if |list| < 2 then Some([])
    else
      match (First(outer, Read16(list, 0)), Copied(list[2..], outer))
      case (Some(e), Some(rest)) => Some(ExtBytes(e) + rest)
      case _ => None
  }

  function ClientPiece(id: Word16, data: Data16, outer: seq<Ext>): Option<Bytes> {
    if id == OUTER_EXTENSIONS then
      match Take8(data)
      case None => Some([])
      case Some((list, _)) => Copied(list, outer)
    else Some(ExtBytes(Ext(id, data)))
  }

  /** The extensions read off the front one by one. */
  function ClientExts(s: Bytes, outer: seq<Ext>): Option<Bytes>
    decreases |s|
  {
    if s == [] then Some([])
    else if |s| < 4 then None
    else
      match Take16(s[2..])
      case None => None
      case Some((data, rest)) => Joined(ClientPiece(Read16(s, 0), data, outer), ClientExts(rest, outer))
  }

  function Joined(a: Option<Bytes>, b: Option<Bytes>): Option<Bytes> {
    if a.Some? && b.Some? then Some(a.value + b.value) else None
  }

  const CLIENT_HELLO: Byte := 1

  function U24(n: nat): Bytes {
    [n / 0x1_0000 % 256, n / 256 % 256, n % 256]
  }

  /** The handshake header and the body. */
  function Message(body: Bytes): Bytes {
    [CLIENT_HELLO] + U24(|body|) + body
  }

  /** echInnerHelloBytes; none where reading or building fails. */
  function ClientExpand(encoded: Bytes, sessionID: Data8, outer: seq<Ext>): Option<Bytes> {
    if |encoded| < HEAD then None
    else
      match Take8(encoded[HEAD..])
      case None => None
      case Some((_, a)) =>
        match Take16(a)
        case None => None
        case Some((suites, b)) =>
          match Take8(b)
          case None => None
          case Some((comp, c)) =>
            match Take16(c)
            case None => None
            case Some((exts, _)) => ClientMessage(encoded[..HEAD], sessionID, suites, comp, ClientExts(exts, outer))
  }

  function ClientMessage(head: Bytes, sessionID: Data8, suites: Data16, comp: Data8, exts: Option<Bytes>)
    : Option<Bytes>
  {
    if exts.None? || |exts.value| >= 0x1_0000 then None
    else Some(Message(Body(head, sessionID, suites, comp, exts.value)))
  }

  // ---- Both, on extensions that hold a list of outer types ----

  /** The list of types in an ech_outer_extensions extension. */
  function TypesList(ids: seq<Word16>): Bytes {
    if ids == [] then [] else U16(ids[0]) + TypesList(ids[1..])
  }

  lemma {:induction false} TypesListSize(ids: seq<Word16>)
    ensures |TypesList(ids)| == 2 * |ids|
  {
    if ids != [] {
      TypesListSize(ids[1..]);
    }
  }

  ghost predicate OneOfEach(es: seq<Ext>) {
    forall i, j :: 0 <= i < j < |es| ==> es[i].id != es[j].id
  }

  ghost predicate Has(es: seq<Ext>, id: Word16) {
    exists i :: 0 <= i < |es| && es[i].id == id
  }

  lemma {:induction false} LastIs(es: seq<Ext>, i: nat)
    requires OneOfEach(es) && i < |es|
    ensures Last(es, es[i].id) == es[i].data
    decreases |es|
  {
    if i < |es| - 1 {
      LastIs(es[..|es| - 1], i);
    }
  }

  lemma {:induction false} FirstIs(es: seq<Ext>, i: nat)
    requires OneOfEach(es) && i < |es|
    ensures First(es, es[i].id) == Some(es[i])
  {
    if i > 0 {
      FirstIs(es[1..], i - 1);
    }
  }

  /** Where every type is there once, the first of it is the last of it. */
  lemma FirstIsLast(es: seq<Ext>, id: Word16)
    requires OneOfEach(es) && Has(es, id)
    ensures First(es, id) == Some(Ext(id, Last(es, id)))
  {
    var i :| 0 <= i < |es| && es[i].id == id;
    LastIs(es, i);
    FirstIs(es, i);
  }

  /** The client copies what the server writes. */
  lemma {:induction false} CopiedIsWritten(ids: seq<Word16>, outer: seq<Ext>)
    requires OneOfEach(outer) && forall i :: 0 <= i < |ids| ==> Has(outer, ids[i])
    ensures Copied(TypesList(ids), outer) == Some(WrittenAll(ids, outer))
  {
    if ids != [] {
      FirstIsLast(outer, ids[0]);
      CopiedIsWritten(ids[1..], outer);
    }
  }

  /** By position, the types are those of the list. */
  lemma {:induction false} NamedIsList(v: Bytes, ids: seq<Word16>, k: nat)
    requires |ids| < 128 && |v| == 1 + 2 * |ids| && v[0] as nat == 2 * |ids| && k <= |ids|
    requires forall i :: 0 <= i < |ids| ==> Read16(v, 1 + 2 * i) == ids[i]
    ensures Named(v, 1 + 2 * k) == ids[k..]
    decreases |ids| - k
  {
    if k < |ids| {
      NamedIsList(v, ids, k + 1);
      assert ids[k..] == [ids[k]] + ids[k + 1..];
    }
  }

  lemma {:induction false} TypesAt(ids: seq<Word16>, i: nat)
    requires i < |ids|
    ensures |TypesList(ids)| == 2 * |ids| && Read16(TypesList(ids), 2 * i) == ids[i]
  {
    TypesListSize(ids);
    if i > 0 {
      TypesAt(ids[1..], i - 1);
      var l, r := TypesList(ids), TypesList(ids[1..]);
      assert l[2 * i] == r[2 * (i - 1)] && l[2 * i + 1] == r[2 * (i - 1) + 1];
    }
  }

  /** The data of ech_outer_extensions. */
  function ListData(ids: seq<Word16>): Data16
    requires |ids| < 128
  {
    TypesListSize(ids);
    Prefixed8(TypesList(ids))
  }

  lemma NamedInList(ids: seq<Word16>)
    requires |ids| < 128
    ensures Named(ListData(ids), 1) == ids
  {
    TypesListSize(ids);
    var v, l := ListData(ids), TypesList(ids);
    forall i | 0 <= i < |ids|
      ensures Read16(v, 1 + 2 * i) == ids[i]
    {
      TypesAt(ids, i);
      assert v[1 + 2 * i] == l[2 * i] && v[1 + 2 * i + 1] == l[2 * i + 1];
    }
    NamedIsList(v, ids, 0);
  }

  /** Any extension but a malformed list, or a list the outer hello has all of. */
  ghost predicate Expandable(e: Ext, outer: seq<Ext>) {
    e.id == OUTER_EXTENSIONS ==>
      exists ids: seq<Word16> ::
        |ids| < 128 && e.data == ListData(ids) && forall i :: 0 <= i < |ids| ==> Has(outer, ids[i])
  }

  ghost predicate AllExpandable(es: seq<Ext>, outer: seq<Ext>) {
    forall i :: 0 <= i < |es| ==> Expandable(es[i], outer)
  }

  lemma TakesBack16(x: Data16, z: Bytes)
    ensures Take16(Prefixed16(x) + z) == Some((x, z))
  {
    var s := Prefixed16(x) + z;
    assert s == U16(|x|) + (x + z);
    assert s[2..2 + |x|] == x && s[2 + |x|..] == z;
  }

  lemma PiecesAgree(e: Ext, outer: seq<Ext>)
    requires OneOfEach(outer) && Expandable(e, outer)
    ensures ClientPiece(e.id, e.data, outer) == Some(Piece(e.id, e.data, outer))
  {
    if e.id == OUTER_EXTENSIONS {
      var ids: seq<Word16> :|
        |ids| < 128 && e.data == ListData(ids) && forall i :: 0 <= i < |ids| ==> Has(outer, ids[i]);
      TypesListSize(ids);
      assert e.data == Prefixed8(TypesList(ids)) + [];
      NamedInList(ids);
      CopiedIsWritten(ids, outer);
    }
  }

  /** The client's first step: an extension off the front. */
  lemma ClientFirst(e: Ext, z: Bytes, outer: seq<Ext>)
    ensures ClientExts(ExtBytes(e) + z, outer) == Joined(ClientPiece(e.id, e.data, outer), ClientExts(z, outer))
  {
    var s := ExtBytes(e) + z;
    assert s == U16(e.id) + (Prefixed16(e.data) + z);
    TakesBack16(e.data, z);
  }

  /** The maps of a hello with one extension of each type give each extension back. */
  ghost predicate Given(order: seq<Ext>, inner: seq<Ext>) {
    forall i :: 0 <= i < |order| ==> Last(inner, order[i].id) == order[i].data
  }

  lemma {:induction false} ExtsAgree(order: seq<Ext>, inner: seq<Ext>, outer: seq<Ext>)
    requires OneOfEach(outer) && Given(order, inner)
    requires AllExpandable(order, outer)
    ensures ClientExts(Exts(order), outer) == Some(ServerExts(order, inner, outer))
  {
    if order != [] {
      var e := order[0];
      assert Last(inner, e.id) == e.data;
      ClientFirst(e, Exts(order[1..]), outer);
      PiecesAgree(e, outer);
      ExtsAgree(order[1..], inner, outer);
    }
  }

  // ---- Both, on whole hellos ----

  lemma Reassociate(a: Bytes, b: Bytes, c: Bytes, d: Bytes, e: Bytes, pad: Bytes)
    ensures a + (b + (c + (d + e))) + pad == a + (b + (c + (d + (e + pad))))
  {}

  /** The client's reading of a hello, whatever follows it. */
  lemma ClientReads(h: Hello, pad: Bytes, sessionID: Data8, outer: seq<Ext>)
    requires Fits(h)
    ensures ClientExpand(HelloBytes(h) + pad, sessionID, outer)
            == ClientMessage(h.head, sessionID, h.suites, h.comp, ClientExts(Exts(h.exts), outer))
  {
    var exts := Exts(h.exts);
    var p, q, r, t := Prefixed8(h.sessionID), Prefixed16(h.suites), Prefixed8(h.comp), Prefixed16(exts);
    Reassociate(h.head, p, q, r, t, pad);
    TakesBack16(h.suites, r + (t + pad));
    TakesBack16(exts, pad);
  }

  /** The server's output is a body, given where its parts are. */
  lemma ServerBuilds(b: Bytes, p: Parsed, head: Bytes, suites: Data16, comp: Data8, sessionID: Data8, exts: Data16)
    requires HEAD < p.middle <= p.extStart <= |b|
    requires b[..HEAD] == head && b[p.middle..p.extStart] == Prefixed16(suites) + Prefixed8(comp)
    ensures ServerWrites(b, p, sessionID, exts) == Some(Body(head, sessionID, suites, comp, exts))
  {
    ServerBody(head, Prefixed8(sessionID), Prefixed16(suites), Prefixed8(comp), Prefixed16(exts));
  }

  lemma LaidSlices(b: Bytes, h: Hello, m: nat, c: nat, s: nat, e: nat)
    requires Fits(h) && Laid(b, h, m, c, s, e)
    ensures HEAD <= |b| && m <= s <= |b| && b[..HEAD] == h.head && b[m..s] == Prefixed16(h.suites) + Prefixed8(h.comp)
  {
    assert b[0..HEAD] == b[..HEAD];
  }

  /** The server's reading of it. */
  lemma ServerReads(h: Hello, pad: Bytes, sessionID: Data8, outer: seq<Ext>)
    requires Fits(h) && |ServerExts(h.exts, h.exts, outer)| < 0x1_0000
    ensures ServerExpand(HelloBytes(h) + pad, sessionID, outer)
            == Some(Body(h.head, sessionID, h.suites, h.comp, ServerExts(h.exts, h.exts, outer)))
  {
    var m, c, s, e := HelloLaid(h, pad);
    var b := HelloBytes(h) + pad;
    ParsesLaid(b, h, m, c, s, e);
    LaidSlices(b, h, m, c, s, e);
    ServerBuilds(b, Parsed(h.sessionID, m, s, e, h.exts), h.head, h.suites, h.comp, sessionID,
                 ServerExts(h.exts, h.exts, outer));
  }

  lemma ServerBody(a: Bytes, b: Bytes, c: Bytes, d: Bytes, e: Bytes)
    ensures a + b + (c + d) + e == a + (b + (c + (d + e)))
  {}

  /** An inner hello whose every extension the outer hello can fill in. */
  ghost predicate Fillable(inner: Hello, outer: seq<Ext>) {
    && Fits(inner) && OneOfEach(inner.exts) && OneOfEach(outer)
    && AllExpandable(inner.exts, outer)
  }

  /** A handshake message is a header and a body, if it came about. */
  predicate HeaderAnd(message: Option<Bytes>, body: Option<Bytes>) {
    message.Some? ==> body.Some? && message.value == Message(body.value)
  }

  /** The client's expansion of an encoded inner hello is a handshake header and the server's, which
      was written apart from it, whatever padding either reads past; it fails only for extensions
      too long for their length. */
  lemma ExpansionsAgree(inner: Hello, clientPad: Bytes, serverPad: Bytes, sessionID: Data8, outer: seq<Ext>)
    requires Fillable(inner, outer)
    ensures var client := ClientExpand(HelloBytes(inner) + clientPad, sessionID, outer);
            && HeaderAnd(client, ServerExpand(HelloBytes(inner) + serverPad, sessionID, outer))
            && (client.Some? <==> |ServerExts(inner.exts, inner.exts, outer)| < 0x1_0000)
  {
    GivenBack(inner.exts);
    ExtsAgree(inner.exts, inner.exts, outer);
    ClientReads(inner, clientPad, sessionID, outer);
    if |ServerExts(inner.exts, inner.exts, outer)| < 0x1_0000 {
      ServerReads(inner, serverPad, sessionID, outer);
    }
  }

  lemma GivenBack(es: seq<Ext>)
    requires OneOfEach(es)
    ensures Given(es, es)
  {
    forall i | 0 <= i < |es|
      ensures Last(es, es[i].id) == es[i].data
    {
      LastIs(es, i);
    }
  }

  /** The outer hello the server parses is the one the client reads its extensions from. */
  lemma OuterParses(outer: Hello)
    requires Fits(outer)
    ensures var p := Parse(HelloBytes(outer));
            p.Some? && p.value.sessionID == outer.sessionID && p.value.exts == outer.exts
  {
    var m, c, s, e := HelloLaid(outer, []);
    assert HelloBytes(outer) + [] == HelloBytes(outer);
    ParsesLaid(HelloBytes(outer), outer, m, c, s, e);
  }
}
