/** In what order the layout comes: bucket order, in a table that eight buckets, first free buckets and
    doublings determine. */
module BlinkOrder {
  import opened BlinkHash
  import opened BlinkProbing
  import opened BlinkMap
  import opened BlinkFirsts

  // ---- Order and placement, by the table alone ----

  ghost predicate Ascending(at: seq<nat>) {
    forall i, j :: 0 <= i < j < |at| ==> at[i] < at[j]
  }

  /** at has the nonempty ones of the first n buckets and no others. */
  ghost predicate Nonempty(slots: Slots, n: nat, at: seq<nat>)
    requires n <= |slots|
  {
    forall b: nat :: b in at <==> b < n && slots[b] != ""
  }

  ghost predicate Buckets(slots: Slots, n: nat, at: seq<nat>)
    requires n <= |slots|
  {
    Ascending(at) && Nonempty(slots, n, at)
  }

  ghost predicate Reads(slots: Slots, at: seq<nat>, names: seq<Name>) {
    |names| == |at| && forall i :: 0 <= i < |at| ==> at[i] < |slots| && names[i] == slots[at[i]]
  }

  /** The names of a table, from its first bucket to its last. */
  ghost predicate InBucketOrder(slots: Slots, names: seq<Name>) {
    exists at :: Buckets(slots, |slots|, at) && Reads(slots, at, names)
  }

  /** The k-th probe is the first to meet an empty bucket. */
  ghost predicate FirstFree(slots: Slots, h: nat, k: nat) {
    && k < |slots| && slots[Bucket(h, k, |slots|)] == ""
    && forall j :: 0 <= j < k ==> slots[Bucket(h, j, |slots|)] != ""
  }

  /** One name more, in the first free bucket of its path. */
  ghost predicate Adds(slots: Slots, name: Name, h: nat, t: Slots) {
    exists k :: FirstFree(slots, h, k) && t == slots[Bucket(h, k, |slots|) := name]
  }

  /** The names added one after another, a table after each. */
  ghost predicate AddsEach(names: seq<Name>, start: Slots, tables: seq<Slots>, hash: HashFunction) {
    && |tables| == |names| + 1 && tables[0] == start
    && forall i :: 0 <= i < |names| ==> Adds(tables[i], names[i], hash(names[i]), tables[i + 1])
  }

  ghost predicate Builds(names: seq<Name>, start: Slots, t: Slots, hash: HashFunction) {
    exists tables :: AddsEach(names, start, tables, hash) && tables[|names|] == t
  }

  ghost predicate AllEmpty(slots: Slots, size: nat) {
    |slots| == size && forall b :: 0 <= b < size ==> slots[b] == ""
  }

  /** The names in twice as many buckets. */
  ghost predicate Moves(xs: seq<Name>, size: nat, u: Slots, hash: HashFunction) {
    exists s :: AllEmpty(s, 2 * size) && Builds(xs, s, u, hash)
  }

  /** After a placement: if half the buckets are in use, the names move, in bucket order, to twice as many. */
  ghost predicate Settles(p: Slots, u: Slots, hash: HashFunction) {
    exists xs :: InBucketOrder(p, xs) && if 2 * |xs| >= |p| then Moves(xs, |p|, u, hash) else u == p
  }

  /** The first name makes a table of eight buckets. */
  ghost predicate Starts(t: Slots, s: Slots) {
    if t == [] then AllEmpty(s, 8) else s == t
  }

  /** One new name. */
  ghost predicate Gains(t: Slots, name: Name, u: Slots, hash: HashFunction) {
    exists s, p :: Starts(t, s) && Adds(s, name, hash(name), p) && Settles(p, u, hash)
  }

  /** One name of the list: empty ones and later spellings do nothing. */
  ghost predicate Turns(names: seq<Name>, n: nat, t: Slots, u: Slots, hash: HashFunction)
    requires n < |names|
  {
    if IsFirst(names, n) then Gains(t, names[n], u, hash) else u == t
  }

  /** A table for each number of names. */
  ghost predicate MadeBy(names: seq<Name>, tables: seq<Slots>, hash: HashFunction) {
    && |tables| == |names| + 1 && tables[0] == []
    && forall n :: 0 <= n < |names| ==> Turns(names, n, tables[n], tables[n + 1], hash)
  }

  // ---- The code does that ----

  /** One bucket more. */
  lemma NextBucket(slots: Slots, n: nat, before: seq<nat>, at: seq<nat>)
    requires n < |slots| && Buckets(slots, n, before)
    requires at == if slots[n] == "" then before else before + [n]
    ensures Buckets(slots, n + 1, at)
  {
    if slots[n] != "" {
      forall i, j | 0 <= i < j < |at| ensures at[i] < at[j] {
        assert at[i] == before[i] && before[i] in before;
      }
    }
  }

  lemma NextRead(slots: Slots, n: nat, before: seq<nat>, names: seq<Name>)
    requires n < |slots| && Reads(slots, before, names)
    ensures Reads(slots, before + [n], names + [slots[n]])
  {}

  /** The names kept from the first n buckets stand at these. */
  ghost predicate KeptAt(slots: Slots, n: nat, at: seq<nat>)
    requires n <= |slots|
  {
    Buckets(slots, n, at) && Reads(slots, at, Kept(slots, n))
  }

  lemma NextKept(slots: Slots, n: nat, before: seq<nat>) returns (at: seq<nat>)
    requires n < |slots| && KeptAt(slots, n, before)
    ensures KeptAt(slots, n + 1, at)
  {
    at := if slots[n] == "" then before else before + [n];
    NextBucket(slots, n, before, at);
    if slots[n] != "" {
      NextRead(slots, n, before, Kept(slots, n));
    } else {
      assert Kept(slots, n + 1) == Kept(slots, n);
    }
  }

  lemma NoneKept(slots: Slots)
    ensures KeptAt(slots, 0, [])
  {}

  ghost predicate InOrder(slots: Slots, n: nat)
    requires n <= |slots|
  {
    exists at :: KeptAt(slots, n, at)
  }

  lemma {:induction false} KeptInOrder(slots: Slots, n: nat)
    requires n <= |slots|
    ensures InOrder(slots, n)
  {
    if n == 0 {
      NoneKept(slots);
    } else {
      KeptInOrder(slots, n - 1);
      var before :| KeptAt(slots, n - 1, before);
      var at := NextKept(slots, n - 1, before);
    }
  }

  lemma KeptOrder(slots: Slots)
    ensures InBucketOrder(slots, Kept(slots, |slots|))
  {
    KeptInOrder(slots, |slots|);
    var at :| KeptAt(slots, |slots|, at);
    assert Buckets(slots, |slots|, at) && Reads(slots, at, Kept(slots, |slots|));
  }

  lemma PlaceAdds(slots: Slots, name: Name, hash: HashFunction)
    requires Inv(slots, hash) && name != "" && !Holds(slots, name) && Count(slots) < |slots|
    ensures Adds(slots, name, hash(name), Place(slots, name, hash(name)))
  {
    var h := hash(name);
    var free := FreeBucket(slots, |slots|);
    var k := EveryBucketProbed(h, |slots|, free);
    StopEmpty(slots, name, h, 0, k);
    assert FirstFree(slots, h, Stop(slots, name, h, 0));
  }

  lemma BuildsNone(start: Slots, hash: HashFunction)
    ensures Builds([], start, start, hash)
  {
    assert AddsEach([], start, [start], hash);
  }

  lemma AddsEachNext(names: seq<Name>, name: Name, start: Slots, tables: seq<Slots>, t: Slots, hash: HashFunction)
    requires AddsEach(names, start, tables, hash) && Adds(tables[|names|], name, hash(name), t)
    ensures AddsEach(names + [name], start, tables + [t], hash)
  {}

  lemma BuildsNext(names: seq<Name>, name: Name, start: Slots, mid: Slots, t: Slots, hash: HashFunction)
    requires Builds(names, start, mid, hash) && Adds(mid, name, hash(name), t)
    ensures Builds(names + [name], start, t, hash)
  {
    var tables :| AddsEach(names, start, tables, hash) && tables[|names|] == mid;
    AddsEachNext(names, name, start, tables, t, hash);
  }

  lemma RefillAdds(was: Slots, n: nat, size: nat, hash: HashFunction)
    requires n < |was| < size && Distinct(was) && PowerOfTwo(size) && was[n] != ""
    ensures Adds(Refill(was, n, size, hash), was[n], hash(was[n]), Refill(was, n + 1, size, hash))
  {
    RefillInv(was, n, size, hash);
    var t := Refill(was, n, size, hash);
    NotHeldYet(was, n, t);
    PlaceAdds(t, was[n], hash);
  }

  lemma RefillNextBuilds(was: Slots, n: nat, size: nat, hash: HashFunction)
    requires n < |was| < size && Distinct(was) && PowerOfTwo(size)
    requires Builds(Kept(was, n), Empty(size), Refill(was, n, size, hash), hash)
    ensures Builds(Kept(was, n + 1), Empty(size), Refill(was, n + 1, size, hash), hash)
  {
    if was[n] != "" {
      RefillAdds(was, n, size, hash);
      BuildsNext(Kept(was, n), was[n], Empty(size), Refill(was, n, size, hash), Refill(was, n + 1, size, hash), hash);
    } else {
      assert Kept(was, n + 1) == Kept(was, n);
    }
  }

  /** A refill adds the old table's names in bucket order. */
  lemma {:induction false} RefillBuilds(was: Slots, n: nat, size: nat, hash: HashFunction)
    requires n <= |was| < size && Distinct(was) && PowerOfTwo(size)
    ensures Builds(Kept(was, n), Empty(size), Refill(was, n, size, hash), hash)
  {
    if n == 0 {
      BuildsNone(Empty(size), hash);
    } else {
      RefillBuilds(was, n - 1, size, hash);
      RefillNextBuilds(was, n - 1, size, hash);
    }
  }

  lemma GrownSettles(p: Slots, hash: HashFunction)
    requires Inv(p, hash)
    ensures Settles(p, Grown(p, hash), hash)
  {
    var xs := Kept(p, |p|);
    KeptOrder(p);
    if 2 * |xs| >= |p| {
      Doubled(|p|);
      RefillBuilds(p, |p|, 2 * |p|, hash);
      assert AllEmpty(Empty(2 * |p|), 2 * |p|);
      assert Moves(xs, |p|, Grown(p, hash), hash);
    }
  }

  lemma FirstTurns(names: seq<Name>, n: nat, t: Slots, hash: HashFunction)
    requires n < |names| && IsFirst(names, n) && Good(t, hash) && !Holds(t, names[n])
    ensures Turns(names, n, t, Insert(t, names[n], hash), hash)
  {
    var name := names[n];
    StartedGood(t, hash);
    var s := Started(t);
    assert Starts(t, s);
    PlaceAdds(s, name, hash);
    PlaceStep(s, name, hash);
    GrownSettles(Place(s, name, hash(name)), hash);
  }

  lemma FillTurns(names: seq<Name>, n: nat, hash: HashFunction)
    requires n < |names| && Insensitive(hash)
    ensures Turns(names, n, Fill(names, n, hash), Fill(names, n + 1, hash), hash)
  {
    FillGood(names, n, hash);
    if IsFirst(names, n) {
      HeldIffSeen(Fill(names, n, hash), names, n);
      FirstTurns(names, n, Fill(names, n, hash), hash);
    } else {
      RepeatSkipped(names, n, hash);
    }
  }

  /** The layout reads, in bucket order, the table that the names make one after another. */
  lemma LayoutOrder(names: seq<Name>, hash: HashFunction) returns (tables: seq<Slots>)
    requires Insensitive(hash)
    ensures MadeBy(names, tables, hash)
    ensures InBucketOrder(tables[|names|], Layout(names, hash))
  {
    tables := seq(|names| + 1, n requires 0 <= n <= |names| => Fill(names, n, hash));
    forall n | 0 <= n < |names| ensures Turns(names, n, tables[n], tables[n + 1], hash) {
      FillTurns(names, n, hash);
    }
    KeptOrder(tables[|names|]);
  }

  // ---- And nothing else would ----

  ghost predicate SameElements(a: seq<nat>, b: seq<nat>) {
    forall x: nat :: x in a <==> x in b
  }

  /** The greatest of an ascending list is its last. */
  lemma LastIsGreatest(at: seq<nat>, x: nat)
    requires Ascending(at) && x in at
    ensures at != [] && x <= at[|at| - 1]
  {}

  lemma SameLast(a: seq<nat>, b: seq<nat>)
    requires Ascending(a) && Ascending(b) && SameElements(a, b) && a != [] && b != []
    ensures a[|a| - 1] == b[|b| - 1]
  {
    var x, y := a[|a| - 1], b[|b| - 1];
    assert x in a && y in b;
    LastIsGreatest(b, x);
    LastIsGreatest(a, y);
  }

  lemma WithoutLast(a: seq<nat>, x: nat)
    requires Ascending(a) && a != []
    ensures x in a[..|a| - 1] <==> x in a && x != a[|a| - 1]
  {}

  /** An ascending list is known by its elements. */
  lemma {:induction false} SameAscending(a: seq<nat>, b: seq<nat>)
    requires Ascending(a) && Ascending(b) && SameElements(a, b)
    ensures a == b
    decreases |a|
  {
    assert a != [] ==> a[0] in b;
    assert b != [] ==> b[0] in a;
    if a != [] && b != [] {
      SameLast(a, b);
      var c, d := a[..|a| - 1], b[..|b| - 1];
      forall x: nat ensures x in c <==> x in d {
        WithoutLast(a, x);
        WithoutLast(b, x);
      }
      SameAscending(c, d);
    }
  }

  lemma OrderUnique(slots: Slots, xs: seq<Name>, ys: seq<Name>)
    requires InBucketOrder(slots, xs) && InBucketOrder(slots, ys)
    ensures xs == ys
  {
    var a :| Buckets(slots, |slots|, a) && Reads(slots, a, xs);
    var b :| Buckets(slots, |slots|, b) && Reads(slots, b, ys);
    SameAscending(a, b);
  }

  lemma AddsUnique(slots: Slots, name: Name, h: nat, t: Slots, u: Slots)
    requires Adds(slots, name, h, t) && Adds(slots, name, h, u)
    ensures t == u
  {
    var j :| FirstFree(slots, h, j) && t == slots[Bucket(h, j, |slots|) := name];
    var k :| FirstFree(slots, h, k) && u == slots[Bucket(h, k, |slots|) := name];
  }

  lemma {:induction false} EachUnique(names: seq<Name>, start: Slots, a: seq<Slots>, b: seq<Slots>,
                                      n: nat, hash: HashFunction)
    requires AddsEach(names, start, a, hash) && AddsEach(names, start, b, hash) && n <= |names|
    ensures a[n] == b[n]
  {
    if n > 0 {
      EachUnique(names, start, a, b, n - 1, hash);
      AddsUnique(a[n - 1], names[n - 1], hash(names[n - 1]), a[n], b[n]);
    }
  }

  lemma BuildsUnique(names: seq<Name>, start: Slots, t: Slots, u: Slots, hash: HashFunction)
    requires Builds(names, start, t, hash) && Builds(names, start, u, hash)
    ensures t == u
  {
    var a :| AddsEach(names, start, a, hash) && a[|names|] == t;
    var b :| AddsEach(names, start, b, hash) && b[|names|] == u;
    EachUnique(names, start, a, b, |names|, hash);
  }

  lemma MovesUnique(xs: seq<Name>, size: nat, t: Slots, u: Slots, hash: HashFunction)
    requires Moves(xs, size, t, hash) && Moves(xs, size, u, hash)
    ensures t == u
  {
    var a :| AllEmpty(a, 2 * size) && Builds(xs, a, t, hash);
    var b :| AllEmpty(b, 2 * size) && Builds(xs, b, u, hash);
    assert a == b;
    BuildsUnique(xs, a, t, u, hash);
  }

  lemma SettlesUnique(p: Slots, t: Slots, u: Slots, hash: HashFunction)
    requires Settles(p, t, hash) && Settles(p, u, hash)
    ensures t == u
  {
    var xs :| InBucketOrder(p, xs) && if 2 * |xs| >= |p| then Moves(xs, |p|, t, hash) else t == p;
    var ys :| InBucketOrder(p, ys) && if 2 * |ys| >= |p| then Moves(ys, |p|, u, hash) else u == p;
    OrderUnique(p, xs, ys);
    if 2 * |xs| >= |p| {
      MovesUnique(xs, |p|, t, u, hash);
    }
  }

  lemma GainsUnique(t: Slots, name: Name, u: Slots, v: Slots, hash: HashFunction)
    requires Gains(t, name, u, hash) && Gains(t, name, v, hash)
    ensures u == v
  {
    var s, p :| Starts(t, s) && Adds(s, name, hash(name), p) && Settles(p, u, hash);
    var r, q :| Starts(t, r) && Adds(r, name, hash(name), q) && Settles(q, v, hash);
    assert s == r;
    AddsUnique(s, name, hash(name), p, q);
    SettlesUnique(p, u, v, hash);
  }

  lemma NextUnique(names: seq<Name>, n: nat, t: Slots, u: Slots, hash: HashFunction)
    requires n < |names| && Insensitive(hash) && t == Fill(names, n, hash) && Turns(names, n, t, u, hash)
    ensures u == Fill(names, n + 1, hash)
  {
    FillTurns(names, n, hash);
    if IsFirst(names, n) {
      GainsUnique(t, names[n], u, Fill(names, n + 1, hash), hash);
    }
  }

  lemma {:induction false} TablesUnique(names: seq<Name>, tables: seq<Slots>, n: nat, hash: HashFunction)
    requires Insensitive(hash) && n <= |names| && MadeBy(names, tables, hash)
    ensures tables[n] == Fill(names, n, hash)
  {
    if n > 0 {
      TablesUnique(names, tables, n - 1, hash);
      NextUnique(names, n - 1, tables[n - 1], tables[n], hash);
    }
  }

  /** Any list read in bucket order off a table made that way is the layout. */
  lemma LayoutUnique(names: seq<Name>, tables: seq<Slots>, out: seq<Name>, hash: HashFunction)
    requires Insensitive(hash) && MadeBy(names, tables, hash)
    requires InBucketOrder(tables[|names|], out)
    ensures out == Layout(names, hash)
  {
    TablesUnique(names, tables, |names|, hash);
    KeptOrder(tables[|names|]);
    OrderUnique(tables[|names|], out, Layout(names, hash));
  }
}
