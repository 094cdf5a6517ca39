/** Vary: which requests a stored response answers, as the code compares maps and as RFC 9111,
    section 4.1, asks. */
module CacheVary {
  import opened Basics
  import opened CacheFreshness

  /** A request's header fields, or those of them a response varies on, by lower-case name. */
  type Values = map<string, string>

  function Names(x: Syntax, h: Header): set<string> {
    x.names(Value(h, "vary"))
  }

  /** varyValues: none when Vary lists nothing, else what the request carries of it. */
  function VaryValues(names: set<string>, request: Values): Option<Values> {
    if names == {} then None else Some(Restrict(names, request))
  }

  function Restrict(names: set<string>, request: Values): Values {
    map n | n in names && n in request :: request[n]
  }

  function OrNothing(v: Option<Values>): Values {
    if v.None? then map[] else v.value
  }

  /** A missing key reads as the empty string. */
  predicate SameVary(a: Values, b: Values) {
    |a| == |b| && forall k :: k in a ==> a[k] == Value(b, k)
  }

  /** The code's check of a stored response against a request. */
  predicate Matches(stored: Option<Values>, names: set<string>, request: Values) {
    stored.None? || SameVary(stored.value, OrNothing(VaryValues(names, request)))
  }

  /** The requests agree on the names: both carry one with the same value, or neither does. */
  predicate Agree(names: set<string>, a: Values, b: Values) {
    forall n :: n in names ==> (n in a <==> n in b) && (n in a ==> a[n] == b[n])
  }

  predicate NonEmpty(v: Values) {
    "" !in v.Values
  }

  /** Without empty values the comparison is equality. */
  lemma SameVaryIsEqual(a: Values, b: Values)
    requires NonEmpty(a) && SameVary(a, b)
    ensures a == b
  {
    forall k | k in a
      ensures k in b && b[k] == a[k]
    {
      assert a[k] in a.Values;
    }
    assert |a.Keys| == |b.Keys|;
    SubsetSameSize(a.Keys, b.Keys);
  }

  ghost function Xs(n: nat): string {
    seq(n, _ => 'x')
  }

  lemma {:induction false} Longer(keys: set<string>) returns (n: nat)
    ensures forall k :: k in keys ==> |k| < n
    decreases |keys|
  {
    if keys == {} {
      n := 0;
    } else {
      var k :| k in keys;
      var m := Longer(keys - {k});
      n := if m > |k| then m else |k| + 1;
      forall j | j in keys
        ensures |j| < n
      {
        assert j == k || j in keys - {k};
      }
    }
  }

  /** The comparison is equality exactly for stored values none of which is empty. */
  lemma SameVaryExact(a: Values)
    ensures (forall b: Values :: SameVary(a, b) ==> a == b) <==> NonEmpty(a)
  {
    if NonEmpty(a) {
      forall b: Values | SameVary(a, b)
        ensures a == b
      {
        SameVaryIsEqual(a, b);
      }
    } else {
      var k :| k in a && a[k] == "";
      var n := Longer(a.Keys);
      var b := (a - {k})[Xs(n) := "y"];
      assert Xs(n) !in a;
      assert b.Keys == a.Keys - {k} + {Xs(n)};
      assert SameVary(a, b) by {
        assert |b.Keys| == |a.Keys|;
      }
    }
  }

  lemma RestrictAgrees(names: set<string>, a: Values, b: Values)
    ensures Restrict(names, a) == Restrict(names, b) <==> Agree(names, a, b)
  {
    var r, s := Restrict(names, a), Restrict(names, b);
    if Agree(names, a, b) {
      assert r == s;
    }
    if r == s {
      forall n | n in names
        ensures (n in a <==> n in b) && (n in a ==> a[n] == b[n])
      {
        assert n in r <==> n in s;
      }
    }
  }

  /** The request carries no empty value of these names, or carries them all. */
  predicate Told(names: set<string>, request: Values) {
    NonEmpty(Restrict(names, request)) || names <= request.Keys
  }

  lemma ToldMatches(names: set<string>, stored: Values, request: Values)
    requires Told(names, stored)
    ensures Matches(VaryValues(names, stored), names, request) <==> Agree(names, stored, request)
  {
    var r, s := Restrict(names, stored), Restrict(names, request);
    RestrictAgrees(names, stored, request);
    if names != {} && SameVary(r, s) {
      if names <= stored.Keys {
        assert r.Keys == names && s.Keys <= names;
        SameSizeKeys(r, s);
      } else {
        SameVaryIsEqual(r, s);
      }
    }
  }

  lemma SameSizeKeys(r: Values, s: Values)
    requires SameVary(r, s) && s.Keys <= r.Keys
    ensures r == s
  {
    assert |r.Keys| == |r| && |s.Keys| == |s|;
    SubsetSameSize(s.Keys, r.Keys);
  }

  /** One empty value carried and one name not carried: the two trade places unseen. */
  lemma TradedPlaces(names: set<string>, stored: Values, empty: string, missing: string)
    requires empty in names && empty in stored && stored[empty] == "" && missing in names && missing !in stored
    ensures var other := (Restrict(names, stored) - {empty})[missing := "y"];
            Matches(VaryValues(names, stored), names, other) && !Agree(names, stored, other)
  {
    var r := Restrict(names, stored);
    var other := (r - {empty})[missing := "y"];
    var s := Restrict(names, other);
    assert s == other;
    assert s.Keys == r.Keys - {empty} + {missing};
    assert |r.Keys| == |r| && |s.Keys| == |s|;
  }

  /** A response stored for one request is used for exactly the requests that agree on what it varies
      on, if and only if the first carried no empty value there or left no name out. */
  lemma MatchesExact(names: set<string>, stored: Values)
    ensures (forall request: Values ::
               Matches(VaryValues(names, stored), names, request) <==> Agree(names, stored, request))
            <==> Told(names, stored)
  {
    if Told(names, stored) {
      forall request: Values
        ensures Matches(VaryValues(names, stored), names, request) <==> Agree(names, stored, request)
      {
        ToldMatches(names, stored, request);
      }
    } else {
      var r := Restrict(names, stored);
      assert exists k :: k in r && r[k] == "";
      var empty :| empty in r && r[empty] == "";
      var missing :| missing in names && missing !in stored;
      TradedPlaces(names, stored, empty, missing);
    }
  }

  /** Requests that agree on the names are told or not together. */
  lemma ToldTogether(names: set<string>, a: Values, b: Values)
    requires Agree(names, a, b) && Told(names, a)
    ensures Told(names, b)
  {
    RestrictAgrees(names, a, b);
    if names <= a.Keys {
      forall n | n in names
        ensures n in b.Keys
      {
        assert n in a.Keys;
      }
    }
  }

  /** After a 304 the stored values stay and Vary may not. What is kept still picks the right
      requests exactly when the values are those the new Vary would have given; none will do as well when
      it lists nothing. */
  lemma RevalidatedExact(stored: Option<Values>, names: set<string>, request: Values)
    requires NonEmpty(request) && (stored.Some? ==> NonEmpty(stored.value))
    ensures (forall other: Values :: Matches(stored, names, other) <==> Agree(names, request, other))
            <==> stored == VaryValues(names, request) || (names == {} && stored == Some(map[]))
  {
    if names == {} {
      assert Matches(stored, names, request) <==> stored.None? || stored.value == map[];
    } else if stored == VaryValues(names, request) {
      forall other: Values
        ensures Matches(stored, names, other) <==> Agree(names, request, other)
      {
        ToldMatches(names, request, other);
      }
    } else if stored.None? {
      var n :| n in names;
      var other := if n in request then map[] else map[n := "y"];
      assert Matches(stored, names, other) && !Agree(names, request, other);
    } else if Matches(stored, names, request) {
      SameVaryIsEqual(stored.value, Restrict(names, request));
    } else {
      assert Agree(names, request, request);
    }
  }
}
