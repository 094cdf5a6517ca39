/** The capture stand's parser and expander as it runs them: positions that advance, maps that fill,
    byte strings that grow. */
module EchServer {
  import opened Basics
  import opened EchWire
  import opened EchExpand

  type ExtMap = map<Word16, Data16>

  /** A missing extension reads as empty. */
  function Lookup(ext: ExtMap, id: Word16): Data16 {
    if id in ext then ext[id] else []
  }

  /** The map holds the last extension of each type. */
  ghost predicate HoldsLast(ext: ExtMap, es: seq<Ext>) {
    forall id: Word16 :: Lookup(ext, id) == Last(es, id)
  }

  lemma LastNext(ext: ExtMap, es: seq<Ext>, e: Ext)
    requires HoldsLast(ext, es)
    ensures HoldsLast(ext[e.id := e.data], es + [e])
  {
    var longer := es + [e];
    assert longer[..|longer| - 1] == es && longer[|longer| - 1] == e;
    forall id: Word16
      ensures Lookup(ext[e.id := e.data], id) == Last(longer, id)
    {
      assert Last(longer, id) == if e.id == id then e.data else Last(es, id);
    }
  }

  /** One extension where the loop stands, or none it can read. */
  function ReadOne(b: Bytes, i: nat): Option<Ext>
    requires i + 4 <= |b|
  {
    match Skip16(b, i + 2)
    case None => None
    case Some(next) => Some(Ext(Read16(b, i), b[i + 4..next]))
  }

  lemma ReadOneNext(b: Bytes, i: nat, end: nat)
    requires i + 4 <= end <= |b|
    ensures ReadExts(b, i, end) ==
            var e := ReadOne(b, i);
            if e.None? then [] else [e.value] + ReadExts(b, i + 4 + |e.value.data|, end)
  {}

  /** The loop has read es and stands at i. */
  ghost predicate ReadTo(all: seq<Ext>, es: seq<Ext>, rest: seq<Ext>, ext: ExtMap, order: seq<Word16>) {
    all == es + rest && order == Types(es) && HoldsLast(ext, es)
  }

  lemma ReadToNext(all: seq<Ext>, es: seq<Ext>, e: Ext, rest: seq<Ext>, ext: ExtMap, order: seq<Word16>)
    requires ReadTo(all, es, [e] + rest, ext, order)
    ensures ReadTo(all, es + [e], rest, ext[e.id := e.data], order + [e.id])
  {
    LastNext(ext, es, e);
  }

  lemma ReadToEnd(all: seq<Ext>, es: seq<Ext>, rest: seq<Ext>, ext: ExtMap, order: seq<Word16>)
    requires ReadTo(all, es, rest, ext, order) && rest == []
    ensures order == Types(all) && HoldsLast(ext, all)
  {
    assert es + rest == es;
  }

  /** parseHello's loop over the extensions. */
  method ReadLoop(b: Bytes, start: nat, end: nat) returns (ext: ExtMap, order: seq<Word16>)
    requires start <= end <= |b|
    ensures order == Types(ReadExts(b, start, end)) && HoldsLast(ext, ReadExts(b, start, end))
  {
    ext, order := map[], [];
    var i := start;
    ghost var es: seq<Ext>, rest := [], ReadExts(b, start, end);
    ghost var all := rest;
    while i + 4 <= end
      invariant ReadTo(all, es, rest, ext, order) && rest == ReadExts(b, i, end)
      decreases end - i
    {
      ReadOneNext(b, i, end);
      var read := ReadOne(b, i);
      if read.None? {
        break;
      }
      var e := read.value;
      rest := rest[1..];
      ReadToNext(all, es, e, rest, ext, order);
      ext, order := ext[e.id := e.data], order + [e.id];
      es := es + [e];
      i := i + 4 + |e.data|;
    }
    ReadToEnd(all, es, rest, ext, order);
  }

  lemma NamedNext(v: Bytes, j: nat)
    requires v != [] && 1 <= j < v[0] as nat + 1 && j + 1 < |v|
    ensures Named(v, j) == [Read16(v, j)] + Named(v, j + 2)
  {}

  /** The loop over the names in ech_outer_extensions. */
  method CopyNamed(v: Bytes, outer: ExtMap, ghost es: seq<Ext>) returns (compressed: seq<Word16>, exts: Bytes)
    requires v != [] && HoldsLast(outer, es)
    ensures compressed == Named(v, 1) && exts == WrittenAll(Named(v, 1), es)
  {
    compressed, exts := [], [];
    var j := 1;
    while j < v[0] as nat + 1 && j + 1 < |v|
      invariant 1 <= j && Named(v, 1) == compressed + Named(v, j) && exts == WrittenAll(compressed, es)
      decreases |v| - j
    {
      NamedNext(v, j);
      var t := Read16(v, j);
      assert Named(v, 1) == compressed + [t] + Named(v, j + 2);
      WrittenNext(compressed, t, es);
      exts := exts + ExtBytes(Ext(t, Lookup(outer, t)));
      compressed := compressed + [t];
      j := j + 2;
    }
  }

  lemma {:induction false} WrittenNext(ids: seq<Word16>, id: Word16, es: seq<Ext>)
    ensures WrittenAll(ids + [id], es) == WrittenAll(ids, es) + ExtBytes(Ext(id, Last(es, id)))
  {
    if ids == [] {
      assert ids + [id] == [id];
    } else {
      assert (ids + [id])[1..] == ids[1..] + [id];
      WrittenNext(ids[1..], id, es);
    }
  }

  lemma {:induction false} ServerNext(order: seq<Ext>, e: Ext, inner: seq<Ext>, outer: seq<Ext>)
    ensures ServerExts(order + [e], inner, outer)
            == ServerExts(order, inner, outer) + Piece(e.id, Last(inner, e.id), outer)
  {
    if order == [] {
      assert order + [e] == [e];
    } else {
      assert (order + [e])[1..] == order[1..] + [e];
      ServerNext(order[1..], e, inner, outer);
    }
  }

  lemma ServerUpTo(inner: seq<Ext>, k: nat, outer: seq<Ext>)
    requires k < |inner|
    ensures ServerExts(inner[..k + 1], inner, outer)
            == ServerExts(inner[..k], inner, outer) + Piece(inner[k].id, Last(inner, inner[k].id), outer)
  {
    assert inner[..k + 1] == inner[..k] + [inner[k]];
    ServerNext(inner[..k], inner[k], inner, outer);
  }

  /** expand's loop over the inner hello's extensions. */
  method ExpandLoop(order: seq<Word16>, ext: ExtMap, outer: ExtMap, ghost inner: seq<Ext>, ghost es: seq<Ext>)
    returns (exts: Bytes)
    requires order == Types(inner) && HoldsLast(ext, inner) && HoldsLast(outer, es)
    ensures exts == ServerExts(inner, inner, es)
  {
    exts := [];
    var k := 0;
    while k < |order|
      invariant k <= |order| && exts == ServerExts(inner[..k], inner, es)
    {
      ghost var before := exts;
      ServerUpTo(inner, k, es);
      var t := order[k];
      var v := Lookup(ext, t);
      assert ServerExts(inner[..k + 1], inner, es) == before + Piece(t, v, es);
      if t == OUTER_EXTENSIONS {
        if v != [] {
          var compressed, copied := CopyNamed(v, outer, es);
          exts := exts + copied;
        }
      } else {
        exts := exts + ExtBytes(Ext(t, v));
      }
      k := k + 1;
    }
    assert inner[..k] == inner;
  }
}
