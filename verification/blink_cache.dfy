/** The cache of Blink layouts, by the names joined with NUL. */
module BlinkCache {
  import opened Basics
  import opened BlinkHash
  import BlinkFirsts
  import BlinkLayout
  import Map = BlinkMap

  /** strings.Join(names, "\0"). */
  function Key(names: seq<Name>): string {
    if names == [] then "" else if |names| == 1 then names[0] else names[0] + "\0" + Key(names[1..])
  }

  predicate Plain(n: Name) {
    '\0' !in n
  }

  ghost predicate NulFree(names: seq<Name>) {
    forall i :: 0 <= i < |names| ==> Plain(names[i])
  }

  // ---- NUL-free lists ----

  /** A key tells NUL-free lists apart, but for the empty list and a single empty name. */
  lemma {:induction false} KeyInjective(a: seq<Name>, b: seq<Name>)
    requires NulFree(a) && NulFree(b) && Key(a) == Key(b) && a != [] && b != []
    ensures a == b
  {
    if |a| > 1 && |b| > 1 {
      SplitAt(a[0], b[0], Key(a[1..]), Key(b[1..]), '\0');
      KeyInjective(a[1..], b[1..]);
      assert a == [a[0]] + a[1..] && b == [b[0]] + b[1..];
    }
  }

  lemma EmptyKeyLayout(names: seq<Name>, hash: Map.HashFunction)
    requires NulFree(names) && Key(names) == "" && names != []
    ensures Map.Layout(names, hash) == Map.Layout([], hash)
  {
    assert |names| == 1;
    assert Map.Fill(names, 0, hash) == [];
  }

  /** So lists with one key have one layout. */
  lemma KeyDecides(a: seq<Name>, b: seq<Name>, hash: Map.HashFunction)
    requires NulFree(a) && NulFree(b) && Key(a) == Key(b)
    ensures Map.Layout(a, hash) == Map.Layout(b, hash)
  {
    if a != [] && b != [] {
      KeyInjective(a, b);
    } else if a != [] {
      EmptyKeyLayout(a, hash);
    } else if b != [] {
      EmptyKeyLayout(b, hash);
    }
  }

  // ---- Names that hold NUL ----

  lemma KeyCons(n: Name, rest: seq<Name>)
    requires rest != []
    ensures Key([n] + rest) == n + "\0" + Key(rest)
  {
    assert ([n] + rest)[1..] == rest;
  }

  lemma {:induction false} KeyJoins(a: seq<Name>, b: seq<Name>)
    requires a != [] && b != []
    ensures Key(a + b) == Key(a) + "\0" + Key(b)
  {
    if |a| == 1 {
      assert a + b == [a[0]] + b;
      KeyCons(a[0], b);
    } else {
      assert a + b == [a[0]] + (a[1..] + b);
      KeyCons(a[0], a[1..] + b);
      KeyJoins(a[1..], b);
    }
  }

  /** A name cut at its NULs. */
  function Pieces(n: Name): (r: seq<Name>)
    ensures r != []
  {
    if n == "" then [""]
    else if n[0] == '\0' then [""] + Pieces(n[1..])
    else
      var rest := Pieces(n[1..]);
      [[n[0]] + rest[0]] + rest[1..]
  }

  lemma {:induction false} PiecesFree(n: Name)
    ensures NulFree(Pieces(n))
  {
    if n != "" {
      PiecesFree(n[1..]);
    }
  }

  lemma Longer(c: string, n: string, k: string)
    ensures c + n + "\0" + k == c + (n + "\0" + k)
  {}

  lemma KeyLonger(c: Name, n: Name, rest: seq<Name>)
    ensures Key([c + n] + rest) == c + Key([n] + rest)
  {
    if rest == [] {
      assert [c + n] + rest == [c + n] && [n] + rest == [n];
    } else {
      KeyCons(c + n, rest);
      KeyCons(n, rest);
      Longer(c, n, Key(rest));
    }
  }

  lemma {:induction false} PiecesKey(n: Name)
    ensures Key(Pieces(n)) == n
  {
    if n != "" {
      PiecesKey(n[1..]);
      var rest := Pieces(n[1..]);
      if n[0] == '\0' {
        KeyCons("", rest);
        assert n == "" + "\0" + n[1..];
      } else {
        assert n == [n[0]] + n[1..];
        assert rest == [rest[0]] + rest[1..];
        KeyLonger([n[0]], rest[0], rest[1..]);
      }
    }
  }

  function AllPieces(names: seq<Name>): seq<Name> {
    if names == [] then [] else Pieces(names[0]) + AllPieces(names[1..])
  }

  lemma FreeConcat(a: seq<Name>, b: seq<Name>)
    requires NulFree(a) && NulFree(b)
    ensures NulFree(a + b)
  {}

  /** The pieces of all names are NUL-free and have the names' own key. */
  lemma {:induction false} PiecesCollide(names: seq<Name>)
    ensures NulFree(AllPieces(names)) && Key(AllPieces(names)) == Key(names)
    ensures names != [] ==> AllPieces(names) != []
  {
    if names != [] {
      var first, rest := Pieces(names[0]), names[1..];
      PiecesFree(names[0]);
      PiecesKey(names[0]);
      PiecesCollide(rest);
      FreeConcat(first, AllPieces(rest));
      if rest == [] {
        assert first + AllPieces(rest) == first;
      } else {
        KeyJoins(first, AllPieces(rest));
      }
    }
  }

  lemma FoldKeepsNul(a: Name, b: Name)
    requires EqualFold(a, b) && !Plain(b)
    ensures !Plain(a)
  {
    var i :| 0 <= i < |b| && b[i] == '\0';
    assert |Fold(a)| == |Fold(b)|;
    assert Fold(a)[i] == Fold(b)[i];
    assert a[i] == '\0';
  }

  lemma FreeLayout(names: seq<Name>, hash: Map.HashFunction)
    requires Map.Insensitive(hash) && NulFree(names)
    ensures NulFree(Map.Layout(names, hash))
  {
    var l := Map.Layout(names, hash);
    BlinkFirsts.LayoutIsFirsts(names, hash);
    forall i | 0 <= i < |l|
      ensures Plain(l[i])
    {
      assert l[i] in l;
      assert Map.FirstSpelling(names, |names|, l[i]);
    }
  }

  /** The key must be of NUL-free names: any list with a name that holds NUL shares its key with a
      NUL-free list of another layout. */
  lemma KeyNeedsNulFree(names: seq<Name>, j: nat, hash: Map.HashFunction)
    requires Map.Insensitive(hash) && j < |names| && !Plain(names[j])
    ensures exists other :: NulFree(other) && Key(other) == Key(names)
                            && Map.Layout(other, hash) != Map.Layout(names, hash)
  {
    var other := AllPieces(names);
    PiecesCollide(names);
    FreeLayout(other, hash);
    var k := BlinkFirsts.EachNameOnce(names, hash, j);
    FoldKeepsNul(Map.Layout(names, hash)[k], names[j]);
  }

  // ---- The cache ----

  const CACHED := 4096

  function LayoutOf(names: seq<Name>): seq<Name> {
    Map.Layout(names, Hash)
  }

  /** What is stored under each key is the result for a list with that key. */
  ghost predicate Answers<L>(stored: map<string, L>, asked: map<string, L>, key: L -> string, result: L -> L) {
    && stored.Keys == asked.Keys
    && forall k :: k in asked ==> key(asked[k]) == k && stored[k] == result(asked[k])
  }

  lemma AnswersNext<L>(stored: map<string, L>, asked: map<string, L>, key: L -> string, result: L -> L, l: L)
    requires Answers(stored, asked, key, result)
    ensures Answers(stored[key(l) := result(l)], asked[key(l) := l], key, result)
  {
    assert stored[key(l) := result(l)].Keys == stored.Keys + {key(l)};
    assert asked[key(l) := l].Keys == asked.Keys + {key(l)};
  }

  lemma OneMore<L>(m: map<string, L>, key: string, l: L)
    ensures |m[key := l]| <= |m| + 1
  {
    assert m[key := l].Keys == m.Keys + {key};
    assert |m[key := l].Keys| == |m[key := l]| && |m.Keys| == |m|;
  }

  ghost predicate AllFree(asked: map<string, seq<Name>>) {
    forall key :: key in asked ==> NulFree(asked[key])
  }

  /** The lists stored for, after one more was asked for. */
  ghost function AskedNext(asked: map<string, seq<Name>>, count: nat, names: seq<Name>): map<string, seq<Name>> {
    if Key(names) in asked || count >= CACHED then asked else asked[Key(names) := names]
  }

  /** The list whose layout is handed out. */
  ghost function Answered(asked: map<string, seq<Name>>, names: seq<Name>): seq<Name> {
    if Key(names) in asked then asked[Key(names)] else names
  }

  /** With NUL-free names only, that is the layout of the names, and so it stays. */
  lemma AnswerIsRight(asked: map<string, seq<Name>>, count: nat, names: seq<Name>)
    requires AllFree(asked) && NulFree(names) && (Key(names) in asked ==> Key(asked[Key(names)]) == Key(names))
    ensures LayoutOf(Answered(asked, names)) == LayoutOf(names) && AllFree(AskedNext(asked, count, names))
  {
    KeyDecides(Answered(asked, names), names, Hash);
  }

  lemma Stored(stored: map<string, seq<Name>>, asked: map<string, seq<Name>>, names: seq<Name>, out: seq<Name>)
    requires Answers(stored, asked, Key, LayoutOf) && out == LayoutOf(names)
    ensures Answers(stored[Key(names) := out], asked[Key(names) := names], Key, LayoutOf)
    ensures |stored[Key(names) := out]| <= |stored| + 1
  {
    AnswersNext(stored, asked, Key, LayoutOf, names);
    OneMore(stored, Key(names), out);
  }

  class LayoutCache {
    var layouts: map<string, seq<Name>>
    var count: nat
    /** The list each layout was computed for. */
    ghost var asked: map<string, seq<Name>>

    ghost predicate Valid()
      reads this
    {
      |layouts| <= CACHED && |layouts| <= count && Answers(layouts, asked, Key, LayoutOf)
    }

    constructor ()
      ensures Valid() && asked == map[]
    {
      layouts, count, asked := map[], 0, map[];
    }

    method Store(names: seq<Name>, out: seq<Name>)
      requires Valid() && out == LayoutOf(names) && Key(names) !in layouts
      modifies this
      ensures Valid() && asked == AskedNext(old(asked), old(count), names)
    {
      count := count + 1;
      if count <= CACHED {
        Stored(layouts, asked, names, out);
        layouts, asked := layouts[Key(names) := out], asked[Key(names) := names];
      }
    }

    /** cachedBlinkLayout, one call at a time: the layout of the list first stored under the key, which
        is the names' own if all lists are NUL-free; and a bounded store. */
    method Cached(names: seq<Name>) returns (out: seq<Name>)
      requires Valid()
      modifies this
      ensures Valid() && asked == AskedNext(old(asked), old(count), names)
      ensures out == LayoutOf(Answered(old(asked), names))
      ensures AllFree(old(asked)) && NulFree(names) ==> AllFree(asked) && out == LayoutOf(names)
    {
      if AllFree(asked) && NulFree(names) {
        AnswerIsRight(asked, count, names);
      }
      var key := Key(names);
      if key in layouts {
        return layouts[key];
      }
      out := BlinkLayout.Layout(names);
      Store(names, out);
    }
  }
}
