/** The binder of a PSK in the inner hello: section 4.2.11.2 of RFC 8446. */
module EchBinder {
  import opened Basics
  import opened EchWire
  import opened EchExpand
  import opened EchInner

  // ---- The expansion with the PSK at its end ----

  /** The inner hello's extensions filled in, one after another. */
  function Filled(es: seq<Ext>, outer: seq<Ext>): Bytes {
    if es == [] then [] else Piece(es[0].id, es[0].data, outer) + Filled(es[1..], outer)
  }

  lemma {:induction false} ServerFills(order: seq<Ext>, inner: seq<Ext>, outer: seq<Ext>)
    requires Given(order, inner)
    ensures ServerExts(order, inner, outer) == Filled(order, outer)
  {
    if order != [] {
      assert Last(inner, order[0].id) == order[0].data;
      ServerFills(order[1..], inner, outer);
    }
  }

  lemma {:induction false} FilledAppend(es: seq<Ext>, e: Ext, outer: seq<Ext>)
    ensures Filled(es + [e], outer) == Filled(es, outer) + Piece(e.id, e.data, outer)
  {
    if es == [] {
      assert es + [e] == [e];
    } else {
      assert (es + [e])[1..] == es[1..] + [e];
      FilledAppend(es[1..], e, outer);
      Assoc(Piece(es[0].id, es[0].data, outer), Filled(es[1..], outer), Piece(e.id, e.data, outer));
    }
  }

  /** The extension before its binder's bytes; of the binder only the length counts. */
  function PskStart(p: Psk): Bytes
    requires PskFits(p)
  {
    U16(PRE_SHARED_KEY) + U16(|PskLead(p)| + |p.binder|) + PskLead(p)
  }

  lemma PskBytes(p: Psk)
    requires PskFits(p)
    ensures ExtBytes(PskExt(p)) == PskStart(p) + p.binder
  {}

  /** The inner hello's extensions but for the PSK. */
  function Others(x: Source, ids: seq<Word16>): seq<Ext>
    requires |Compressed(Boring, x, ids)| < 128
  {
    OwnAll(Boring, x, ids) + ListExt(Compressed(Boring, x, ids))
  }

  lemma InnerExts(x: Source, ids: seq<Word16>, p: Psk)
    requires Sized(Boring, x, ids, Some(p))
    ensures Inner(Boring, x, ids, Some(p)).exts == Others(x, ids) + [PskExt(p)]
  {}

  /** A body that ends in some bytes, as far as those: they count by their number only. */
  function Front(head: Bytes, sessionID: Data8, suites: Data16, comp: Data8, exts: Bytes, n: nat): Bytes
    requires |exts| + n < 0x1_0000
  {
    head + (Prefixed8(sessionID) + (Prefixed16(suites) + (Prefixed8(comp) + (U16(|exts| + n) + exts))))
  }

  lemma BodyEnds(head: Bytes, sessionID: Data8, suites: Data16, comp: Data8, exts: Bytes, z: Bytes)
    requires |exts| + |z| < 0x1_0000
    ensures Body(head, sessionID, suites, comp, exts + z) == Front(head, sessionID, suites, comp, exts, |z|) + z
  {}

  function MessageFront(front: Bytes, n: nat): Bytes {
    [CLIENT_HELLO] + U24(|front| + n) + front
  }

  lemma MessageEnds(front: Bytes, z: Bytes)
    ensures Message(front + z) == MessageFront(front, |z|) + z
  {}

  // ---- The two passes ----

  /** The encoding as far as the binder. */
  ghost function EncodedFront(x: Source, ids: seq<Word16>, p: Psk): Bytes
    requires Sized(Boring, x, ids, Some(p)) && Fits(Inner(Boring, x, ids, Some(p)))
    requires |Exts(Others(x, ids))| + |PskStart(p)| + |p.binder| < 0x1_0000
  {
    Front(x.head, [], Words(KeptSuites(Boring, x.suites)), [0], Exts(Others(x, ids)) + PskStart(p), |p.binder|)
  }

  lemma ExtsEnd(x: Source, ids: seq<Word16>, p: Psk)
    requires Sized(Boring, x, ids, Some(p))
    ensures Exts(Inner(Boring, x, ids, Some(p)).exts) == Exts(Others(x, ids)) + PskStart(p) + p.binder
  {
    InnerExts(x, ids, p);
    ExtsConcat(Others(x, ids), [PskExt(p)]);
    ExtsOne(PskExt(p));
    PskBytes(p);
  }

  /** The encoding ends in the binder, and the binder's bytes are nowhere else in it. */
  lemma EncodedEnds(x: Source, ids: seq<Word16>, p: Psk)
    requires Sized(Boring, x, ids, Some(p)) && Fits(Inner(Boring, x, ids, Some(p)))
    ensures |Exts(Others(x, ids))| + |PskStart(p)| + |p.binder| < 0x1_0000
    ensures HelloBytes(Inner(Boring, x, ids, Some(p))) == EncodedFront(x, ids, p) + p.binder
  {
    ExtsEnd(x, ids, p);
    BodyEnds(x.head, [], Words(KeptSuites(Boring, x.suites)), [0], Exts(Others(x, ids)) + PskStart(p), p.binder);
  }

  /** The expanded message as far as the binder. */
  ghost function FullFront(x: Source, ids: seq<Word16>, p: Psk, sessionID: Data8, outer: seq<Ext>): Bytes
    requires Sized(Boring, x, ids, Some(p))
    requires |Filled(Others(x, ids), outer)| + |PskStart(p)| + |p.binder| < 0x1_0000
  {
    MessageFront(Front(x.head, sessionID, Words(KeptSuites(Boring, x.suites)), [0],
                       Filled(Others(x, ids), outer) + PskStart(p), |p.binder|), |p.binder|)
  }

  lemma FilledEnd(x: Source, ids: seq<Word16>, p: Psk, outer: seq<Ext>)
    requires Sized(Boring, x, ids, Some(p))
    ensures Filled(Inner(Boring, x, ids, Some(p)).exts, outer) == Filled(Others(x, ids), outer) + PskStart(p) + p.binder
  {
    InnerExts(x, ids, p);
    FilledAppend(Others(x, ids), PskExt(p), outer);
    PskBytes(p);
  }

  /** The client's expansion ends in the binder; what comes before it depends on its length only. */
  lemma FullEnds(x: Source, outer: seq<Ext>, p: Psk, sessionID: Data8, pad: Bytes)
    requires OneOfEach(outer) && Sized(Boring, x, Types(outer), Some(p))
    requires Fits(Inner(Boring, x, Types(outer), Some(p)))
    requires |Filled(Others(x, Types(outer)), outer)| + |PskStart(p)| + |p.binder| < 0x1_0000
    ensures ClientExpand(HelloBytes(Inner(Boring, x, Types(outer), Some(p))) + pad, sessionID, outer)
            == Some(FullFront(x, Types(outer), p, sessionID, outer) + p.binder)
  {
    var ids := Types(outer);
    var h := Inner(Boring, x, ids, Some(p));
    InnerFillable(Boring, x, outer, Some(p));
    GivenBack(h.exts);
    ExtsAgree(h.exts, h.exts, outer);
    ServerFills(h.exts, h.exts, outer);
    FilledEnd(x, ids, p, outer);
    ClientReads(h, pad, sessionID, outer);
    var exts := Filled(Others(x, ids), outer) + PskStart(p);
    BodyEnds(x.head, sessionID, h.suites, h.comp, exts, p.binder);
    MessageEnds(Front(x.head, sessionID, h.suites, h.comp, exts, |p.binder|), p.binder);
  }

  /** What a transcript leaves out: the binders' length, the binder's, and the binder. */
  function Cut(full: Bytes, size: nat): Bytes
    requires |full| >= 3 + size
  {
    full[..|full| - (3 + size)]
  }

  lemma CutFront(front: Bytes, z: Bytes)
    requires |front| >= 3
    ensures Cut(front + z, |z|) == front[..|front| - 3]
  {}

  lemma EndsIn(front: Bytes, z: Bytes)
    ensures (front + z)[|front + z| - |z|..] == z && (front + z)[..|front + z| - |z|] == front
  {}

  lemma SameStart(p: Psk, binder: Bytes)
    requires PskFits(p) && |binder| == |p.binder|
    ensures PskFits(p.(binder := binder)) && PskStart(p.(binder := binder)) == PskStart(p)
  {}

  /** A binder as long as the other fits where it does. */
  lemma SameFits(x: Source, ids: seq<Word16>, p: Psk, q: Psk)
    requires Sized(Boring, x, ids, Some(p)) && Fits(Inner(Boring, x, ids, Some(p)))
    requires PskFits(q) && PskStart(q) == PskStart(p) && |q.binder| == |p.binder|
    ensures Sized(Boring, x, ids, Some(q)) && Fits(Inner(Boring, x, ids, Some(q)))
  {
    ExtsEnd(x, ids, p);
    ExtsEnd(x, ids, q);
  }

  lemma SameFronts(x: Source, ids: seq<Word16>, p: Psk, binder: Bytes, sessionID: Data8, outer: seq<Ext>)
    requires Sized(Boring, x, ids, Some(p)) && |binder| == |p.binder| && Fits(Inner(Boring, x, ids, Some(p)))
    requires |Exts(Others(x, ids))| + |PskStart(p)| + |p.binder| < 0x1_0000
    requires |Filled(Others(x, ids), outer)| + |PskStart(p)| + |p.binder| < 0x1_0000
    ensures var q := p.(binder := binder);
            && Sized(Boring, x, ids, Some(q)) && Fits(Inner(Boring, x, ids, Some(q)))
            && |PskStart(q)| == |PskStart(p)|
            && EncodedFront(x, ids, q) == EncodedFront(x, ids, p)
            && FullFront(x, ids, q, sessionID, outer) == FullFront(x, ids, p, sessionID, outer)
  {
    var q := p.(binder := binder);
    SameStart(p, binder);
    SameFits(x, ids, p, q);
    assert EncodedFront(x, ids, q) == EncodedFront(x, ids, p);
  }

  function Replaced(first: Bytes, binder: Bytes): Bytes
    requires |binder| <= |first|
  {
    first[..|first| - |binder|] + binder
  }

  /** The final bytes expand to a message with the transcript the binder was computed over, and end
      in that binder. */
  ghost predicate CoveredBy(full: Bytes, size: nat, binder: Bytes, last: Option<Bytes>) {
    && last.Some? && |last.value| == |full| >= 3 + size && |binder| == size
    && Cut(last.value, size) == Cut(full, size)
    && last.value[|full| - size..] == binder
  }

  /** Whoever expands the first pass with the binder in its place, padded or not, and leaves out the
      binders finds the transcript the binder was computed over. A hash has outputs of one size. */
  ghost predicate SelfConsistent(first: Bytes, size: nat, finished: Bytes -> Bytes, sessionID: Data8,
                                 outer: seq<Ext>, pad: Bytes) {
    && |first| >= size
    && var full := ClientExpand(first, sessionID, outer);
       && full.Some? && |full.value| >= 3 + size
       && var binder := finished(Cut(full.value, size));
          |binder| == size ==>
            CoveredBy(full.value, size, binder, ClientExpand(Replaced(first, binder) + pad, sessionID, outer))
  }

  /** The second pass, with the binder in its place, has the first one's bytes before it. */
  lemma SecondPass(x: Source, outer: seq<Ext>, p: Psk, binder: Bytes, sessionID: Data8, pad: Bytes)
    requires OneOfEach(outer) && Sized(Boring, x, Types(outer), Some(p))
    requires Fits(Inner(Boring, x, Types(outer), Some(p)))
    requires |Filled(Others(x, Types(outer)), outer)| + |PskStart(p)| + |p.binder| < 0x1_0000 && |binder| == |p.binder|
    ensures var first := HelloBytes(Inner(Boring, x, Types(outer), Some(p)));
            && |first| >= |binder|
            && ClientExpand(Replaced(first, binder) + pad, sessionID, outer)
               == Some(FullFront(x, Types(outer), p, sessionID, outer) + binder)
  {
    var ids := Types(outer);
    var q := p.(binder := binder);
    EncodedEnds(x, ids, p);
    EndsIn(EncodedFront(x, ids, p), p.binder);
    SameFronts(x, ids, p, binder, sessionID, outer);
    EncodedEnds(x, ids, q);
    FullEnds(x, outer, q, sessionID, pad);
  }

  /** Both expansions end in their binders and are alike before. */
  lemma FrontsCover(first: Bytes, front: Bytes, zero: Bytes, finished: Bytes -> Bytes,
                    sessionID: Data8, outer: seq<Ext>, pad: Bytes)
    requires |first| >= |zero| && |front| >= 3 && ClientExpand(first, sessionID, outer) == Some(front + zero)
    requires var binder := finished(Cut(front + zero, |zero|));
             |binder| == |zero| ==>
               ClientExpand(Replaced(first, binder) + pad, sessionID, outer) == Some(front + binder)
    ensures SelfConsistent(first, |zero|, finished, sessionID, outer, pad)
  {
    CutFront(front, zero);
    var binder := finished(Cut(front + zero, |zero|));
    CutFront(front, binder);
    EndsIn(front, binder);
  }

  /** The binder copied into the encoding changes nothing it covers. */
  lemma BinderCoversItself(x: Source, outer: seq<Ext>, p: Psk, sessionID: Data8, pad: Bytes, finished: Bytes -> Bytes)
    requires OneOfEach(outer) && Sized(Boring, x, Types(outer), Some(p))
    requires Fits(Inner(Boring, x, Types(outer), Some(p)))
    requires |Filled(Others(x, Types(outer)), outer)| + |PskStart(p)| + |p.binder| < 0x1_0000
    ensures var first := HelloBytes(Inner(Boring, x, Types(outer), Some(p)));
            SelfConsistent(first, |p.binder|, finished, sessionID, outer, pad)
  {
    var first := HelloBytes(Inner(Boring, x, Types(outer), Some(p)));
    var front := FullFront(x, Types(outer), p, sessionID, outer);
    FullEnds(x, outer, p, sessionID, []);
    assert first + [] == first;
    EncodedEnds(x, Types(outer), p);
    var binder := finished(Cut(front + p.binder, |p.binder|));
    if |binder| == |p.binder| {
      SecondPass(x, outer, p, binder, sessionID, pad);
    }
    FrontsCover(first, front, p.binder, finished, sessionID, outer, pad);
  }

  /** copy(h[len(h)-size:], binder). */
  method CopyBinder(h: array<Byte>, binder: Bytes)
    requires |binder| <= h.Length
    modifies h
    ensures h[..] == old(h[..])[..h.Length - |binder|] + binder
  {
    var start := h.Length - |binder|;
    var i := 0;
    while i < |binder|
      invariant i <= |binder| && h[..start] == old(h[..])[..start] && h[start..start + i] == binder[..i]
    {
      h[start + i] := binder[i];
      i := i + 1;
    }
  }
}
