/** One order of header names consistent with every recorded sequence, ties to the name seen first. */
module HeaderMerge {
  import opened Basics

  type Name = string

  // ---- What an order is ----

  ghost predicate Once(l: seq<Name>) {
    forall i, j :: 0 <= i < j < |l| ==> l[i] != l[j]
  }

  /** Increasing positions of s in out. */
  ghost predicate Places(s: seq<Name>, out: seq<Name>, at: seq<nat>) {
    && |at| == |s|
    && (forall i :: 0 <= i < |s| ==> at[i] < |out| && out[at[i]] == s[i])
    && (forall i, j :: 0 <= i < j < |s| ==> at[i] < at[j])
  }

  ghost predicate Subsequence(s: seq<Name>, out: seq<Name>) {
    exists at :: Places(s, out, at)
  }

  /** Each name of the sequences once and no other, every sequence in its own order. */
  ghost predicate Order(seqs: seq<seq<Name>>, out: seq<Name>) {
    && Once(out)
    && (forall n :: n in out <==> Appears(seqs, n))
    && (forall k :: 0 <= k < |seqs| ==> Subsequence(seqs[k], out))
  }

  ghost predicate Appears(seqs: seq<seq<Name>>, n: Name) {
    exists k :: 0 <= k < |seqs| && n in seqs[k]
  }

  /** Lexicographically before, by the names' places in first. */
  ghost predicate ComesFirst(first: seq<Name>, a: seq<Name>, b: seq<Name>) {
    exists k :: 0 <= k < |a| && k < |b| && a[..k] == b[..k] && Rank(first, a[k]) < Rank(first, b[k])
  }

  function Rank(first: seq<Name>, n: Name): (r: nat)
    ensures r <= |first| && (r < |first| <==> n in first)
    ensures r < |first| ==> first[r] == n
  {
    if first == [] then 0 else if first[0] == n then 0 else 1 + Rank(first[1..], n)
  }

  // ---- The graph of the sequences ----

  /** Names in the order of their ranks, and which come after which. */
  datatype Graph = Graph(names: seq<Name>, after: map<Name, set<Name>>)

  ghost predicate Valid(g: Graph) {
    && Once(g.names)
    && (forall n :: n in g.names <==> n in g.after)
    && (forall a, b :: a in g.after && b in g.after[a] ==> b in g.after)
  }

  function After(after: map<Name, set<Name>>, a: Name): set<Name> {
    if a in after then after[a] else {}
  }

  /** A topological order of the graph. */
  ghost predicate Topological(g: Graph, out: seq<Name>) {
    && Once(out)
    && (forall n :: n in out <==> n in g.names)
    && (forall i, j :: 0 <= i <= j < |out| ==> out[i] !in After(g.after, out[j]))
  }

  function Incoming(after: map<Name, set<Name>>, b: Name): set<Name> {
    set a | a in after && b in after[a]
  }

  // ---- Sorting by rank ----

  ghost predicate Sorted(first: seq<Name>, l: seq<Name>) {
    forall i, j :: 0 <= i < j < |l| ==> Rank(first, l[i]) <= Rank(first, l[j])
  }

  function InsertByRank(first: seq<Name>, n: Name, l: seq<Name>): (r: seq<Name>)
    ensures forall x :: x in r <==> x == n || x in l
    ensures |r| == |l| + 1
  {
    if l == [] || Rank(first, n) <= Rank(first, l[0]) then [n] + l else [l[0]] + InsertByRank(first, n, l[1..])
  }

  function SortByRank(first: seq<Name>, l: seq<Name>): (r: seq<Name>)
    ensures forall x :: x in r <==> x in l
    ensures |r| == |l|
  {
    if l == [] then [] else InsertByRank(first, l[0], SortByRank(first, l[1..]))
  }

  lemma {:induction false} InsertSorted(first: seq<Name>, n: Name, l: seq<Name>)
    requires Sorted(first, l)
    ensures Sorted(first, InsertByRank(first, n, l))
  {
    if l != [] && Rank(first, n) > Rank(first, l[0]) {
      InsertSorted(first, n, l[1..]);
      var r := InsertByRank(first, n, l[1..]);
      forall j | 0 <= j < |r|
        ensures Rank(first, l[0]) <= Rank(first, r[j])
      {
        assert r[j] in r;
      }
    }
  }

  lemma {:induction false} SortSorts(first: seq<Name>, l: seq<Name>)
    ensures Sorted(first, SortByRank(first, l))
  {
    if l != [] {
      SortSorts(first, l[1..]);
      InsertSorted(first, l[0], SortByRank(first, l[1..]));
    }
  }

  lemma OnceSize(l: seq<Name>, s: set<Name>)
    requires Once(l) && forall x :: x in l <==> x in s
    ensures |l| == |s|
    decreases |l|
  {
    if l != [] {
      var n := |l| - 1;
      forall x ensures x in l[..n] <==> x in s - {l[n]} {
        assert x in l[..n] ==> x != l[n];
      }
      OnceSize(l[..n], s - {l[n]});
    } else {
      assert s == {};
    }
  }

  lemma SubsetSize(a: set<Name>, b: set<Name>)
    requires a <= b
    ensures |a| <= |b| && (|a| == |b| ==> a == b) && (|a| < |b| ==> exists x :: x in b && x !in a)
  {
    assert b == a + (b - a);
    if |a| < |b| {
      assert b - a != {};
      var x :| x in b - a;
    }
  }

  // ---- Greedy choice ----

  /** The names that may come next: not placed, and everything before them placed. */
  ghost predicate Next(g: Graph, out: seq<Name>, n: Name) {
    n in g.names && n !in out && forall a :: a in Incoming(g.after, n) ==> a in out
  }

  /** Each name placed was, of those that might come next, the one seen first. */
  ghost predicate Greedy(g: Graph, out: seq<Name>) {
    forall k :: 0 <= k < |out| ==>
      Next(g, out[..k], out[k]) && forall n :: Next(g, out[..k], n) ==> Rank(g.names, out[k]) <= Rank(g.names, n)
  }

  lemma TopologicalNext(g: Graph, other: seq<Name>, k: nat)
    requires Valid(g) && Topological(g, other) && k < |other|
    ensures Next(g, other[..k], other[k])
  {
    forall a | a in Incoming(g.after, other[k])
      ensures a in other[..k]
    {
      assert a in other;
      var i :| 0 <= i < |other| && other[i] == a;
      assert i < k;
    }
  }

  lemma SameLength(g: Graph, a: seq<Name>, b: seq<Name>)
    requires Topological(g, a) && Topological(g, b)
    ensures |a| == |b|
  {
    var s := set n | n in g.names;
    OnceSize(a, s);
    OnceSize(b, s);
  }

  lemma FirstDifference(a: seq<Name>, b: seq<Name>) returns (k: nat)
    requires |a| == |b| && a != b
    ensures k < |a| && a[..k] == b[..k] && a[k] != b[k]
  {
    k := 0;
    while a[k] == b[k]
      invariant k < |a| && a[..k] == b[..k]
      invariant exists j :: k <= j < |a| && a[j] != b[j]
      decreases |a| - k
    {
      k := k + 1;
    }
  }

  lemma GreedyPick(g: Graph, out: seq<Name>, k: nat, n: Name)
    requires Greedy(g, out) && k < |out| && Next(g, out[..k], n)
    ensures Rank(g.names, out[k]) <= Rank(g.names, n)
  {}

  lemma RanksDiffer(first: seq<Name>, a: Name, b: Name)
    requires a in first && a != b
    ensures Rank(first, a) != Rank(first, b)
  {}

  /** A greedy order and any other part where the other's name has the later rank. */
  lemma GreedyIsLeast(g: Graph, out: seq<Name>, other: seq<Name>)
    requires Valid(g) && Topological(g, out) && Greedy(g, out) && Topological(g, other) && out != other
    ensures ComesFirst(g.names, out, other)
  {
    SameLength(g, out, other);
    var k := FirstDifference(out, other);
    TopologicalNext(g, other, k);
    assert out[..k] == other[..k];
    GreedyPick(g, out, k, other[k]);
    assert out[k] in out;
    RanksDiffer(g.names, out[k], other[k]);
  }

  /** A greedy run that places all names is a topological order. */
  lemma GreedyIsTopological(g: Graph, out: seq<Name>)
    requires Valid(g) && Greedy(g, out) && Once(out) && forall n :: n in out <==> n in g.names
    ensures Topological(g, out)
  {
    forall i, j | 0 <= i <= j < |out|
      ensures out[i] !in After(g.after, out[j])
    {
      assert Next(g, out[..i], out[i]);
      assert out[j] !in out[..i];
      assert out[j] !in Incoming(g.after, out[i]);
    }
  }

  /** Names still to place of which none may come next. */
  ghost predicate Stuck(g: Graph, out: seq<Name>) {
    (forall n :: !Next(g, out, n)) && exists n :: n in g.names && n !in out
  }

  /** Stuck before the end, the graph has no topological order. */
  lemma StuckMeansNone(g: Graph, out: seq<Name>, other: seq<Name>)
    requires Valid(g) && Stuck(g, out)
    ensures !Topological(g, other)
  {
    if Topological(g, other) {
      var k := 0;
      while k < |other| && other[k] in out
        invariant k <= |other| && forall i :: 0 <= i < k ==> other[i] in out
      {
        k := k + 1;
      }
      if k < |other| {
        TopologicalNext(g, other, k);
        assert Next(g, out, other[k]);
      }
    }
  }

  // ---- Sequences and graph ----

  ghost predicate EdgeOf(s: seq<Name>, a: Name, b: Name) {
    exists p, q :: 0 <= p < q < |s| && s[p] == a && s[q] == b
  }

  ghost predicate Edge(seqs: seq<seq<Name>>, a: Name, b: Name) {
    exists k :: 0 <= k < |seqs| && EdgeOf(seqs[k], a, b)
  }

  ghost predicate GraphOf(seqs: seq<seq<Name>>, g: Graph) {
    && Valid(g)
    && (forall n :: n in g.names <==> Appears(seqs, n))
    && (forall a, b :: b in After(g.after, a) <==> Edge(seqs, a, b))
  }

  lemma EdgeKept(seqs: seq<seq<Name>>, out: seq<Name>, a: Name, b: Name)
    requires Order(seqs, out) && Edge(seqs, a, b)
    ensures exists p, q :: 0 <= p < q < |out| && out[p] == a && out[q] == b
  {
    var k :| 0 <= k < |seqs| && EdgeOf(seqs[k], a, b);
    var p, q :| 0 <= p < q < |seqs[k]| && seqs[k][p] == a && seqs[k][q] == b;
    var at :| Places(seqs[k], out, at);
    assert at[p] < at[q];
  }

  /** An order that keeps every sequence is a topological order. */
  lemma OrderIsTopological(seqs: seq<seq<Name>>, g: Graph, out: seq<Name>)
    requires GraphOf(seqs, g) && Order(seqs, out)
    ensures Topological(g, out)
  {
    forall i, j | 0 <= i <= j < |out|
      ensures out[i] !in After(g.after, out[j])
    {
      if Edge(seqs, out[j], out[i]) {
        EdgeKept(seqs, out, out[j], out[i]);
      }
    }
  }

  function Index(out: seq<Name>, n: Name): (i: nat)
    requires n in out
    ensures i < |out| && out[i] == n
  {
    Rank(out, n)
  }

  lemma TopologicalKeeps(seqs: seq<seq<Name>>, g: Graph, out: seq<Name>, k: nat)
    requires GraphOf(seqs, g) && Topological(g, out) && k < |seqs|
    ensures Subsequence(seqs[k], out)
  {
    var s := seqs[k];
    forall i | 0 <= i < |s|
      ensures s[i] in out
    {
      assert Appears(seqs, s[i]);
    }
    var at := seq(|s|, i requires 0 <= i < |s| => Index(out, s[i]));
    forall i, j | 0 <= i < j < |s|
      ensures at[i] < at[j]
    {
      assert EdgeOf(s, s[i], s[j]);
      assert Edge(seqs, s[i], s[j]);
      assert out[at[j]] in After(g.after, out[at[i]]);
    }
    assert Places(s, out, at);
  }

  /** And the other way about. */
  lemma TopologicalIsOrder(seqs: seq<seq<Name>>, g: Graph, out: seq<Name>)
    requires GraphOf(seqs, g) && Topological(g, out)
    ensures Order(seqs, out)
  {
    forall k | 0 <= k < |seqs|
      ensures Subsequence(seqs[k], out)
    {
      TopologicalKeeps(seqs, g, out, k);
    }
  }

  // ---- Cycles ----

  /** A walk along the edges back to where it starts. */
  ghost predicate Cycle(seqs: seq<seq<Name>>, c: seq<Name>) {
    |c| >= 2 && c[0] == c[|c| - 1] && forall i :: 0 <= i < |c| - 1 ==> Edge(seqs, c[i], c[i + 1])
  }

  lemma EdgeRises(seqs: seq<seq<Name>>, out: seq<Name>, a: Name, b: Name)
    requires Order(seqs, out) && Edge(seqs, a, b)
    ensures a in out && b in out && Rank(out, a) < Rank(out, b)
  {
    EdgeKept(seqs, out, a, b);
  }

  lemma {:induction false} WalkRises(seqs: seq<seq<Name>>, out: seq<Name>, c: seq<Name>, i: nat)
    requires Order(seqs, out) && Cycle(seqs, c) && 0 < i < |c|
    ensures Rank(out, c[0]) < Rank(out, c[i])
  {
    EdgeRises(seqs, out, c[i - 1], c[i]);
    if i > 1 {
      WalkRises(seqs, out, c, i - 1);
    }
  }

  ghost predicate Left(g: Graph, out: seq<Name>, n: Name) {
    n in g.names && n !in out
  }

  ghost predicate Walk(g: Graph, out: seq<Name>, w: seq<Name>) {
    && (forall i :: 0 <= i < |w| ==> Left(g, out, w[i]))
    && forall i :: 0 <= i < |w| - 1 ==> w[i + 1] in After(g.after, w[i])
  }

  /** Each name left has another before it that is left. */
  lemma StepBack(g: Graph, out: seq<Name>, n: Name) returns (a: Name)
    requires Valid(g) && Stuck(g, out) && Left(g, out, n)
    ensures Left(g, out, a) && n in After(g.after, a)
  {
    assert !Next(g, out, n);
    a :| a in Incoming(g.after, n) && a !in out;
  }

  lemma {:induction false} WalkBack(g: Graph, out: seq<Name>, size: nat) returns (w: seq<Name>)
    requires Valid(g) && Stuck(g, out) && size > 0
    ensures |w| == size && Walk(g, out, w)
  {
    if size == 1 {
      var n :| n in g.names && n !in out;
      w := [n];
    } else {
      var rest := WalkBack(g, out, size - 1);
      var a := StepBack(g, out, rest[0]);
      w := [a] + rest;
    }
  }

  lemma OnceFits(l: seq<Name>, names: seq<Name>)
    requires Once(l) && Once(names) && forall n :: n in l ==> n in names
    ensures |l| <= |names|
  {
    var some, all := set n | n in l, set n | n in names;
    OnceSize(l, some);
    OnceSize(names, all);
    SubsetSize(some, all);
  }

  /** A walk longer than the names there are meets a name twice. */
  lemma StuckHasCycle(seqs: seq<seq<Name>>, g: Graph, out: seq<Name>) returns (c: seq<Name>)
    requires GraphOf(seqs, g) && Stuck(g, out)
    ensures Cycle(seqs, c)
  {
    var w := WalkBack(g, out, |g.names| + 1);
    forall n | n in w ensures n in g.names {
      var i :| 0 <= i < |w| && w[i] == n;
      assert Left(g, out, w[i]);
    }
    if Once(w) {
      OnceFits(w, g.names);
    }
    var i, j :| 0 <= i < j < |w| && w[i] == w[j];
    c := w[i..j + 1];
  }

  // ---- The algorithm ----

  /** The names before n not placed yet. */
  function Missing(after: map<Name, set<Name>>, out: seq<Name>, n: Name): set<Name> {
    set a | a in Incoming(after, n) && a !in out
  }

  /** Placing n: one name less is missing for those after it. */
  lemma MissingLess(after: map<Name, set<Name>>, out: seq<Name>, n: Name, b: Name)
    requires n in after && n !in out
    ensures |Missing(after, out, b)| == |Missing(after, out + [n], b)| + if b in after[n] then 1 else 0
  {
    if b in after[n] {
      assert Missing(after, out, b) == Missing(after, out + [n], b) + {n};
    } else {
      assert Missing(after, out, b) == Missing(after, out + [n], b);
    }
  }

  type Counts = map<Name, int>

  /** The counts are of missing names, and one more for those still to be counted down. */
  ghost predicate Counted(g: Graph, out: seq<Name>, incoming: Counts, todo: set<Name>) {
    forall x :: x in g.names ==>
      x in incoming && incoming[x] == |Missing(g.after, out, x)| + if x in todo then 1 else 0
  }

  ghost predicate Ready(g: Graph, out: seq<Name>, incoming: Counts, ready: seq<Name>) {
    && Once(ready)
    && forall x :: x in ready <==> x in g.names && x !in out && x in incoming && incoming[x] == 0
  }

  /** What is placed has nothing missing before it. */
  ghost predicate Closed(g: Graph, out: seq<Name>) {
    Once(out) && forall x :: x in out ==> x in g.names && forall a :: a in Incoming(g.after, x) ==> a in out
  }

  lemma ReadyIsNext(g: Graph, out: seq<Name>, incoming: Counts, ready: seq<Name>, n: Name)
    requires Counted(g, out, incoming, {}) && Ready(g, out, incoming, ready)
    ensures n in ready <==> Next(g, out, n)
  {
    if n in g.names {
      assert incoming[n] == |Missing(g.after, out, n)|;
      if n in ready {
        assert Missing(g.after, out, n) == {};
        forall a | a in Incoming(g.after, n) ensures a in out {
          assert a !in Missing(g.after, out, n);
        }
      }
      if Next(g, out, n) {
        assert Missing(g.after, out, n) == {};
      }
    }
  }

  lemma CountsDrop(g: Graph, out: seq<Name>, n: Name, incoming: Counts)
    requires n in g.after && n !in out && Counted(g, out, incoming, {})
    ensures Counted(g, out + [n], incoming, g.after[n])
  {
    forall x | x in g.names
      ensures x in incoming && incoming[x] == |Missing(g.after, out + [n], x)| + if x in g.after[n] then 1 else 0
    {
      MissingLess(g.after, out, n, x);
    }
  }

  lemma NotPlacedYet(g: Graph, out: seq<Name>, n: Name, b: Name)
    requires Valid(g) && Closed(g, out) && Next(g, out, n) && b in g.after[n]
    ensures b !in out + [n]
  {
    assert n in Incoming(g.after, b);
  }

  function CountedDown(incoming: Counts, b: Name): Counts
    requires b in incoming
  {
    incoming[b := incoming[b] - 1]
  }

  lemma CountedOne(g: Graph, out: seq<Name>, incoming: Counts, todo: set<Name>, b: Name)
    requires Counted(g, out, incoming, todo) && b in todo && b in incoming
    ensures Counted(g, out, CountedDown(incoming, b), todo - {b})
  {}

  lemma ReadyOne(g: Graph, out: seq<Name>, incoming: Counts, ready: seq<Name>, b: Name)
    requires Ready(g, out, incoming, ready) && b in g.names && b !in out && b in incoming && incoming[b] > 0
    ensures Ready(g, out, CountedDown(incoming, b), if incoming[b] == 1 then ready + [b] else ready)
  {
    assert b !in ready;
  }

  /** The inner loop: the names after n, in whatever order the set gives them. */
  method CountDown(g: Graph, ghost before: seq<Name>, n: Name, incoming: Counts, ready: seq<Name>)
    returns (incoming': Counts, ready': seq<Name>)
    requires Valid(g) && Closed(g, before) && Next(g, before, n)
    requires Counted(g, before + [n], incoming, g.after[n]) && Ready(g, before + [n], incoming, ready)
    ensures Counted(g, before + [n], incoming', {}) && Ready(g, before + [n], incoming', ready')
  {
    incoming', ready' := incoming, ready;
    ghost var out := before + [n];
    var todo := g.after[n];
    while todo != {}
      invariant todo <= g.after[n]
      invariant Counted(g, out, incoming', todo) && Ready(g, out, incoming', ready')
      decreases todo
    {
      var b :| b in todo;
      NotPlacedYet(g, before, n, b);
      CountedOne(g, out, incoming', todo, b);
      ReadyOne(g, out, incoming', ready', b);
      incoming' := CountedDown(incoming', b);
      if incoming'[b] == 0 {
        ready' := ready' + [b];
      }
      todo := todo - {b};
    }
  }

  lemma {:induction false} SortOnce(first: seq<Name>, l: seq<Name>)
    requires Once(l)
    ensures Once(SortByRank(first, l))
  {
    if l != [] {
      SortOnce(first, l[1..]);
      InsertOnce(first, l[0], SortByRank(first, l[1..]));
    }
  }

  lemma {:induction false} InsertOnce(first: seq<Name>, n: Name, l: seq<Name>)
    requires Once(l) && n !in l
    ensures Once(InsertByRank(first, n, l))
  {
    if l != [] && Rank(first, n) > Rank(first, l[0]) {
      InsertOnce(first, n, l[1..]);
      var r := InsertByRank(first, n, l[1..]);
      forall j | 0 <= j < |r|
        ensures r[j] != l[0]
      {
        assert r[j] in r;
      }
    }
  }

  lemma GreedyStep(g: Graph, out: seq<Name>, n: Name)
    requires Greedy(g, out) && Next(g, out, n) && forall m :: Next(g, out, m) ==> Rank(g.names, n) <= Rank(g.names, m)
    ensures Greedy(g, out + [n])
  {
    forall k | 0 <= k < |out| + 1
      ensures Next(g, (out + [n])[..k], (out + [n])[k])
              && forall m :: Next(g, (out + [n])[..k], m) ==> Rank(g.names, (out + [n])[k]) <= Rank(g.names, m)
    {
      assert (out + [n])[..k] == out[..k];
      if k == |out| {
        assert out[..k] == out;
      }
    }
  }

  ghost predicate Placing(g: Graph, out: seq<Name>) {
    Closed(g, out) && Greedy(g, out)
  }

  ghost predicate Pending(g: Graph, out: seq<Name>, incoming: Counts, ready: seq<Name>) {
    Counted(g, out, incoming, {}) && Ready(g, out, incoming, ready)
  }

  /** The first of the ready names may come next, and is the one seen first. */
  lemma FirstReady(g: Graph, out: seq<Name>, incoming: Counts, ready: seq<Name>)
    requires Pending(g, out, incoming, ready) && Sorted(g.names, ready) && ready != []
    ensures Next(g, out, ready[0])
    ensures forall m :: Next(g, out, m) ==> Rank(g.names, ready[0]) <= Rank(g.names, m)
  {
    forall m ensures m in ready <==> Next(g, out, m) {
      ReadyIsNext(g, out, incoming, ready, m);
    }
  }

  lemma Placed(g: Graph, out: seq<Name>, n: Name)
    requires Placing(g, out) && Next(g, out, n)
    requires forall m :: Next(g, out, m) ==> Rank(g.names, n) <= Rank(g.names, m)
    ensures Placing(g, out + [n])
  {
    GreedyStep(g, out, n);
  }

  lemma RestReady(g: Graph, out: seq<Name>, incoming: Counts, ready: seq<Name>)
    requires Ready(g, out, incoming, ready) && ready != []
    ensures Ready(g, out + [ready[0]], incoming, ready[1..])
  {
    var n := ready[0];
    forall x ensures x in ready[1..] <==> x in ready && x != n {
      if x in ready && x != n {
        var i :| 0 <= i < |ready| && ready[i] == x;
        assert ready[1..][i - 1] == x;
      }
    }
  }

  /** The queue in rank order is the same queue. */
  lemma SortedReady(g: Graph, out: seq<Name>, incoming: Counts, ready: seq<Name>)
    requires Pending(g, out, incoming, ready)
    ensures Pending(g, out, incoming, SortByRank(g.names, ready)) && Sorted(g.names, SortByRank(g.names, ready))
  {
    SortSorts(g.names, ready);
    SortOnce(g.names, ready);
  }

  /** One name placed. */
  method Turn(g: Graph, out: seq<Name>, incoming: Counts, ready: seq<Name>)
    returns (out': seq<Name>, incoming': Counts, ready': seq<Name>)
    requires Valid(g) && Placing(g, out) && Pending(g, out, incoming, ready)
    requires Sorted(g.names, ready) && ready != []
    ensures Placing(g, out') && Pending(g, out', incoming', ready') && Sorted(g.names, ready')
    ensures |out'| == |out| + 1
  {
    var n := ready[0];
    FirstReady(g, out, incoming, ready);
    Placed(g, out, n);
    CountsDrop(g, out, n, incoming);
    RestReady(g, out, incoming, ready);
    out' := out + [n];
    incoming', ready' := CountDown(g, out, n, incoming, ready[1..]);
    SortedReady(g, out', incoming', ready');
    ready' := SortByRank(g.names, ready');
  }

  /** All that are ready at the start. */
  method Begin(g: Graph, incoming: Counts) returns (ready: seq<Name>)
    requires Valid(g) && Counted(g, [], incoming, {})
    ensures Pending(g, [], incoming, ready) && Sorted(g.names, ready)
  {
    ready := [];
    var i := 0;
    while i < |g.names|
      invariant i <= |g.names| && Once(ready)
      invariant forall x :: x in ready <==> x in g.names[..i] && incoming[x] == 0
    {
      assert g.names[..i + 1] == g.names[..i] + [g.names[i]];
      if incoming[g.names[i]] == 0 {
        ready := ready + [g.names[i]];
      }
      i := i + 1;
    }
    assert g.names[..i] == g.names;
    SortedReady(g, [], incoming, ready);
    ready := SortByRank(g.names, ready);
  }

  /** All names placed, a topological order, or names left of which none may come. */
  lemma Finished(g: Graph, out: seq<Name>, incoming: Counts)
    requires Valid(g) && Placing(g, out) && Pending(g, out, incoming, [])
    ensures |out| <= |g.names|
    ensures |out| == |g.names| ==> Topological(g, out)
    ensures |out| < |g.names| ==> Stuck(g, out)
  {
    var placed, all := set n | n in out, set n | n in g.names;
    OnceSize(out, placed);
    OnceSize(g.names, all);
    assert placed <= all;
    SubsetSize(placed, all);
    if |out| == |g.names| {
      assert placed == all;
      assert forall n :: n in out <==> n in placed;
      GreedyIsTopological(g, out);
    } else {
      var left :| left in all && left !in placed;
      forall n ensures !Next(g, out, n) {
        ReadyIsNext(g, out, incoming, [], n);
      }
    }
  }

  /** The least topological order by rank, or none because there is none. */
  method Arrange(g: Graph, counts: Counts) returns (r: Option<seq<Name>>)
    requires Valid(g) && Counted(g, [], counts, {})
    ensures r.Some? ==>
              Topological(g, r.value)
              && forall other :: Topological(g, other) && other != r.value ==> ComesFirst(g.names, r.value, other)
    ensures r.None? ==> (exists out :: Stuck(g, out)) && forall other :: !Topological(g, other)
  {
    var out: seq<Name>, incoming := [], counts;
    var ready := Begin(g, incoming);
    ghost var all := set n | n in g.names;
    while ready != []
      invariant Placing(g, out) && Pending(g, out, incoming, ready) && Sorted(g.names, ready)
      decreases |g.names| - |out|
    {
      PlacedFew(g, out, ready);
      out, incoming, ready := Turn(g, out, incoming, ready);
    }
    Finished(g, out, incoming);
    if |out| < |g.names| {
      forall other ensures !Topological(g, other) {
        StuckMeansNone(g, out, other);
      }
      return None;
    }
    forall other | Topological(g, other) && other != out
      ensures ComesFirst(g.names, out, other)
    {
      GreedyIsLeast(g, out, other);
    }
    r := Some(out);
  }

  lemma PlacedFew(g: Graph, out: seq<Name>, ready: seq<Name>)
    requires Valid(g) && Closed(g, out) && ready != [] && forall x :: x in ready ==> x in g.names && x !in out
    ensures |out| < |g.names|
  {
    var placed, all := set n | n in out, set n | n in g.names;
    OnceSize(out, placed);
    OnceSize(g.names, all);
    assert ready[0] in all && ready[0] !in placed;
    assert placed <= all - {ready[0]};
    SubsetSize(placed, all - {ready[0]});
  }

  // ---- The names in the order they are first seen ----

  function Flatten(seqs: seq<seq<Name>>): seq<Name> {
    if seqs == [] then [] else Flatten(seqs[..|seqs| - 1]) + seqs[|seqs| - 1]
  }

  function FirstSeen(l: seq<Name>): seq<Name> {
    if l == [] then []
    else Noted(FirstSeen(l[..|l| - 1]), l[|l| - 1])
  }

  function Noted(first: seq<Name>, n: Name): seq<Name> {
    if n in first then first else first + [n]
  }

  lemma {:induction false} FirstSeenMembers(l: seq<Name>)
    ensures Once(FirstSeen(l)) && forall n :: n in FirstSeen(l) <==> n in l
    decreases |l|
  {
    if l != [] {
      FirstSeenMembers(l[..|l| - 1]);
      assert l == l[..|l| - 1] + [l[|l| - 1]];
    }
  }

  /** A name of lower rank is somewhere in the input before the first place of the other. */
  lemma {:induction false} FirstSeenOrder(l: seq<Name>, i: nat, j: nat)
    requires i < j < |FirstSeen(l)|
    ensures exists p :: 0 <= p < |l| && l[p] == FirstSeen(l)[i] && FirstSeen(l)[j] !in l[..p + 1]
    decreases |l|
  {
    var n := |l| - 1;
    var m := l[..n];
    FirstSeenMembers(m);
    if j < |FirstSeen(m)| {
      FirstSeenOrder(m, i, j);
      var p :| 0 <= p < |m| && m[p] == FirstSeen(m)[i] && FirstSeen(m)[j] !in m[..p + 1];
      assert l[..p + 1] == m[..p + 1];
    } else {
      assert FirstSeen(m)[i] in m;
      var p :| 0 <= p < n && m[p] == FirstSeen(m)[i];
      assert l[n] !in m;
      assert forall x :: x in l[..p + 1] ==> x in m;
    }
  }

  lemma {:induction false} FlattenMembers(seqs: seq<seq<Name>>, n: Name)
    ensures n in Flatten(seqs) <==> Appears(seqs, n)
    decreases |seqs|
  {
    if seqs != [] {
      var k := |seqs| - 1;
      FlattenMembers(seqs[..k], n);
      if Appears(seqs[..k], n) {
        var i :| 0 <= i < k && n in seqs[..k][i];
        assert n in seqs[i];
      }
      if Appears(seqs, n) {
        var i :| 0 <= i < |seqs| && n in seqs[i];
        if i < k {
          assert n in seqs[..k][i];
        }
      }
    }
  }

  lemma FlattenNext(seqs: seq<seq<Name>>, k: nat)
    requires k < |seqs|
    ensures Flatten(seqs[..k + 1]) == Flatten(seqs[..k]) + seqs[k]
  {
    assert seqs[..k + 1][..k] == seqs[..k];
  }

  /** One sequence more; before is what has been seen. */
  method SeeSequence(s: seq<Name>, first: seq<Name>, ghost before: seq<Name>) returns (first': seq<Name>)
    requires first == FirstSeen(before)
    ensures first' == FirstSeen(before + s)
  {
    first' := first;
    var p := 0;
    assert before + s[..0] == before;
    while p < |s|
      invariant p <= |s| && first' == FirstSeen(before + s[..p])
    {
      assert before + s[..p] + [s[p]] == before + s[..p + 1];
      first' := Noted(first', s[p]);
      p := p + 1;
    }
    assert s[..p] == s;
  }

  method SeeFirst(seqs: seq<seq<Name>>) returns (first: seq<Name>)
    ensures first == FirstSeen(Flatten(seqs))
  {
    first := [];
    var k := 0;
    while k < |seqs|
      invariant k <= |seqs| && first == FirstSeen(Flatten(seqs[..k]))
    {
      FlattenNext(seqs, k);
      first := SeeSequence(seqs[k], first, Flatten(seqs[..k]));
      k := k + 1;
    }
    assert seqs[..k] == seqs;
  }

  // ---- What comes after what ----

  type Edges = map<Name, set<Name>>

  function WithEdge(after: Edges, a: Name, b: Name): Edges {
    after[a := After(after, a) + {b}]
  }

  /** How many names each comes after. */
  function Tally(after: Edges): Counts {
    map b | b in after :: |Incoming(after, b)|
  }

  /** The pairs of s from i to those before j. */
  function WithRow(after: Edges, s: seq<Name>, i: nat, j: nat): Edges
    requires j <= |s|
  {
    if j <= i + 1 then after else WithEdge(WithRow(after, s, i, j - 1), s[i], s[j - 1])
  }

  /** The pairs of s that start before i. */
  function WithRows(after: Edges, s: seq<Name>, i: nat): Edges
    requires i <= |s|
  {
    if i == 0 then after else WithRow(WithRows(after, s, i - 1), s, i - 1, |s|)
  }

  /** The pairs of the first k sequences. */
  function WithSequences(after: Edges, seqs: seq<seq<Name>>, k: nat): Edges
    requires k <= |seqs|
  {
    if k == 0 then after else WithRows(WithSequences(after, seqs, k - 1), seqs[k - 1], |seqs[k - 1]|)
  }

  lemma {:induction false} RowMeans(after: Edges, s: seq<Name>, i: nat, j: nat, a: Name, b: Name)
    requires i < j <= |s|
    ensures b in After(WithRow(after, s, i, j), a)
            <==> b in After(after, a) || (a == s[i] && exists q :: i < q < j && s[q] == b)
  {
    if j > i + 1 {
      RowMeans(after, s, i, j - 1, a, b);
    }
  }

  ghost predicate EdgeFrom(s: seq<Name>, i: nat, a: Name, b: Name) {
    exists p, q :: 0 <= p < i && p < q < |s| && s[p] == a && s[q] == b
  }

  lemma {:induction false} RowsMean(after: Edges, s: seq<Name>, i: nat, a: Name, b: Name)
    requires i <= |s|
    ensures b in After(WithRows(after, s, i), a) <==> b in After(after, a) || EdgeFrom(s, i, a, b)
  {
    if i > 0 {
      RowsMean(after, s, i - 1, a, b);
      RowMeans(WithRows(after, s, i - 1), s, i - 1, |s|, a, b);
      if EdgeFrom(s, i, a, b) && !EdgeFrom(s, i - 1, a, b) {
        var p, q :| 0 <= p < i && p < q < |s| && s[p] == a && s[q] == b;
        assert p == i - 1;
      }
      if a == s[i - 1] && exists q :: i - 1 < q < |s| && s[q] == b {
        var q :| i - 1 < q < |s| && s[q] == b;
        assert s[i - 1] == a;
      }
    }
  }

  lemma {:induction false} SequencesMean(seqs: seq<seq<Name>>, k: nat, none: Edges, a: Name, b: Name)
    requires k <= |seqs| && After(none, a) == {}
    ensures b in After(WithSequences(none, seqs, k), a) <==> Edge(seqs[..k], a, b)
  {
    if k > 0 {
      SequencesMean(seqs, k - 1, none, a, b);
      RowsMean(WithSequences(none, seqs, k - 1), seqs[k - 1], |seqs[k - 1]|, a, b);
      assert EdgeFrom(seqs[k - 1], |seqs[k - 1]|, a, b) <==> EdgeOf(seqs[k - 1], a, b);
    }
  }

  // ---- No name is added by an edge between names ----

  lemma {:induction false} RowKeys(after: Edges, s: seq<Name>, i: nat, j: nat)
    requires i < j <= |s| && s[i] in after
    ensures WithRow(after, s, i, j).Keys == after.Keys
  {
    if j > i + 1 {
      RowKeys(after, s, i, j - 1);
    }
  }

  lemma {:induction false} RowsKeys(after: Edges, s: seq<Name>, i: nat)
    requires i <= |s| && forall n :: n in s ==> n in after
    ensures WithRows(after, s, i).Keys == after.Keys
  {
    if i > 0 {
      RowsKeys(after, s, i - 1);
      assert s[i - 1] in s;
      assert s[i - 1] in after.Keys;
      RowKeys(WithRows(after, s, i - 1), s, i - 1, |s|);
    }
  }

  lemma {:induction false} SequencesKeys(after: Edges, seqs: seq<seq<Name>>, k: nat)
    requires k <= |seqs| && forall n :: Appears(seqs, n) ==> n in after
    ensures WithSequences(after, seqs, k).Keys == after.Keys
  {
    if k > 0 {
      SequencesKeys(after, seqs, k - 1);
      var s, before := seqs[k - 1], WithSequences(after, seqs, k - 1);
      forall n | n in s ensures n in before {
        assert Appears(seqs, n);
        assert n in before.Keys;
      }
      RowsKeys(before, s, |s|);
    }
  }

  // ---- The loops ----

  lemma IncomingWith(after: Edges, a: Name, b: Name, c: Name)
    requires a in after
    ensures Incoming(WithEdge(after, a, b), c) == Incoming(after, c) + if c == b then {a} else {}
  {
    forall x
      ensures x in Incoming(WithEdge(after, a, b), c) <==> x in Incoming(after, c) || (c == b && x == a)
    {}
  }

  lemma TallyOf(after: Edges, counts: Counts)
    requires counts.Keys == after.Keys && forall c :: c in after ==> counts[c] == |Incoming(after, c)|
    ensures counts == Tally(after)
  {}

  lemma TallyWith(after: Edges, a: Name, b: Name)
    requires a in after && b in after && b !in after[a]
    ensures Tally(WithEdge(after, a, b)) == Tally(after)[b := Tally(after)[b] + 1]
  {
    var u := WithEdge(after, a, b);
    var counts := Tally(after)[b := Tally(after)[b] + 1];
    assert u.Keys == after.Keys;
    forall c | c in u
      ensures counts[c] == |Incoming(u, c)|
    {
      IncomingWith(after, a, b, c);
      assert a !in Incoming(after, b);
    }
    TallyOf(u, counts);
  }

  lemma SameEdge(after: Edges, a: Name, b: Name)
    requires a in after && b in after[a]
    ensures WithEdge(after, a, b) == after
  {
    assert after[a] + {b} == after[a];
  }

  /** One edge more, if it is new. */
  method AddEdge(after: Edges, incoming: Counts, a: Name, b: Name) returns (after': Edges, incoming': Counts)
    requires incoming == Tally(after) && a in after && b in after
    ensures after' == WithEdge(after, a, b) && incoming' == Tally(after')
  {
    after', incoming' := after, incoming;
    if b !in after[a] {
      TallyWith(after, a, b);
      after' := after[a := after[a] + {b}];
      incoming' := incoming[b := incoming[b] + 1];
    } else {
      SameEdge(after, a, b);
    }
  }

  lemma InTable(row: Edges, s: seq<Name>, i: nat, j: nat)
    requires i < j < |s| && forall n :: n in s ==> n in row
    ensures s[i] in WithRow(row, s, i, j) && s[j] in WithRow(row, s, i, j)
  {
    assert s[i] in s && s[j] in s;
    RowKeys(row, s, i, j);
  }

  method AddRow(s: seq<Name>, i: nat, row: Edges, incoming: Counts) returns (after: Edges, incoming': Counts)
    requires i < |s| && incoming == Tally(row) && forall n :: n in s ==> n in row
    ensures after == WithRow(row, s, i, |s|) && incoming' == Tally(after)
  {
    after, incoming' := row, incoming;
    var j := i + 1;
    while j < |s|
      invariant i < j <= |s| && after == WithRow(row, s, i, j) && incoming' == Tally(after)
    {
      InTable(row, s, i, j);
      after, incoming' := AddEdge(after, incoming', s[i], s[j]);
      j := j + 1;
    }
  }

  lemma RowsHold(after: Edges, s: seq<Name>, i: nat)
    requires i <= |s| && forall n :: n in s ==> n in after
    ensures forall n :: n in s ==> n in WithRows(after, s, i)
  {
    RowsKeys(after, s, i);
    forall n | n in s ensures n in WithRows(after, s, i) {
      assert n in after.Keys;
    }
  }

  method AddSequence(s: seq<Name>, after: Edges, incoming: Counts) returns (after': Edges, incoming': Counts)
    requires incoming == Tally(after) && forall n :: n in s ==> n in after
    ensures after' == WithRows(after, s, |s|) && incoming' == Tally(after')
  {
    after', incoming' := after, incoming;
    var i := 0;
    while i < |s|
      invariant i <= |s| && after' == WithRows(after, s, i) && incoming' == Tally(after')
    {
      RowsHold(after, s, i);
      after', incoming' := AddRow(s, i, after', incoming');
      i := i + 1;
    }
  }

  function NoEdges(first: seq<Name>): Edges {
    map n | n in first :: {}
  }

  function NoCounts(first: seq<Name>): Counts {
    map n | n in first :: 0
  }

  lemma NothingTallied(first: seq<Name>)
    ensures Tally(NoEdges(first)) == NoCounts(first)
  {
    forall b ensures Incoming(NoEdges(first), b) == {} {}
  }

  lemma SequenceHeld(seqs: seq<seq<Name>>, first: seq<Name>, k: nat, n: Name)
    requires k < |seqs| && (forall n :: n in first <==> Appears(seqs, n)) && n in seqs[k]
    ensures n in WithSequences(NoEdges(first), seqs, k)
  {
    assert Appears(seqs, n);
    SequencesKeys(NoEdges(first), seqs, k);
    assert n in NoEdges(first).Keys;
  }

  method FindEdges(seqs: seq<seq<Name>>, first: seq<Name>) returns (after: Edges, incoming: Counts)
    requires forall n :: n in first <==> Appears(seqs, n)
    ensures after == AllEdges(seqs, first) && incoming == Tally(after)
  {
    after, incoming := NoEdges(first), NoCounts(first);
    NothingTallied(first);
    var k := 0;
    while k < |seqs|
      invariant k <= |seqs| && after == WithSequences(NoEdges(first), seqs, k) && incoming == Tally(after)
    {
      forall n | n in seqs[k] ensures n in after {
        SequenceHeld(seqs, first, k, n);
      }
      after, incoming := AddSequence(seqs[k], after, incoming);
      k := k + 1;
    }
  }

  /** The edges the loops find. */
  function AllEdges(seqs: seq<seq<Name>>, first: seq<Name>): Edges {
    WithSequences(NoEdges(first), seqs, |seqs|)
  }

  lemma FoundEdges(seqs: seq<seq<Name>>, first: seq<Name>, a: Name, b: Name)
    ensures b in After(AllEdges(seqs, first), a) <==> Edge(seqs, a, b)
  {
    assert seqs[..|seqs|] == seqs;
    SequencesMean(seqs, |seqs|, NoEdges(first), a, b);
  }

  lemma FoundKeys(seqs: seq<seq<Name>>, first: seq<Name>)
    requires forall n :: n in first <==> Appears(seqs, n)
    ensures forall n :: n in first <==> n in AllEdges(seqs, first)
  {
    SequencesKeys(NoEdges(first), seqs, |seqs|);
    forall n ensures n in first <==> n in AllEdges(seqs, first) {
      assert n in NoEdges(first).Keys <==> n in AllEdges(seqs, first).Keys;
    }
  }

  lemma TallyCounts(g: Graph)
    requires Valid(g)
    ensures Counted(g, [], Tally(g.after), {})
  {
    forall x | x in g.names ensures Missing(g.after, [], x) == Incoming(g.after, x) {}
  }

  lemma GraphBuilt(seqs: seq<seq<Name>>, g: Graph)
    requires Once(g.names) && (forall n :: n in g.names <==> Appears(seqs, n))
    requires forall n :: n in g.names <==> n in g.after
    requires forall a, b :: b in After(g.after, a) <==> Edge(seqs, a, b)
    ensures GraphOf(seqs, g)
  {
    forall a, b | a in g.after && b in g.after[a]
      ensures b in g.after
    {
      assert b in After(g.after, a);
      assert Appears(seqs, b);
    }
  }

  /** The graph the loops build is that of the sequences. */
  lemma FoundGraph(seqs: seq<seq<Name>>, first: seq<Name>)
    requires Once(first) && forall n :: n in first <==> Appears(seqs, n)
    ensures var g := Graph(first, AllEdges(seqs, first)); GraphOf(seqs, g) && Counted(g, [], Tally(g.after), {})
  {
    var g := Graph(first, AllEdges(seqs, first));
    FoundKeys(seqs, first);
    forall a, b ensures b in After(g.after, a) <==> Edge(seqs, a, b) {
      FoundEdges(seqs, first, a, b);
    }
    GraphBuilt(seqs, g);
    TallyCounts(g);
  }

  /** merge: an order of the names in which every sequence keeps its own, the least such by first
      appearance, exactly when there is one; and nothing exactly when the sequences' pairs form a cycle. */
  method Merge(seqs: seq<seq<Name>>) returns (r: Option<seq<Name>>)
    ensures r.Some? <==> exists out :: Order(seqs, out)
    ensures r.None? <==> exists c :: Cycle(seqs, c)
    ensures r.Some? ==> Order(seqs, r.value)
    ensures r.Some? ==> forall other :: Order(seqs, other) && other != r.value
                          ==> ComesFirst(FirstSeen(Flatten(seqs)), r.value, other)
  {
    var first := SeeFirst(seqs);
    FirstSeenMembers(Flatten(seqs));
    forall n ensures n in first <==> Appears(seqs, n) {
      FlattenMembers(seqs, n);
    }
    var after, incoming := FindEdges(seqs, first);
    var g := Graph(first, after);
    FoundGraph(seqs, first);
    r := Arrange(g, incoming);
    forall out ensures Order(seqs, out) <==> Topological(g, out) {
      if Order(seqs, out) {
        OrderIsTopological(seqs, g, out);
      }
      if Topological(g, out) {
        TopologicalIsOrder(seqs, g, out);
      }
    }
    if r.None? {
      ghost var out :| Stuck(g, out);
      ghost var c := StuckHasCycle(seqs, g, out);
    } else {
      forall c ensures !Cycle(seqs, c) {
        if Cycle(seqs, c) {
          WalkRises(seqs, r.value, c, |c| - 1);
        }
      }
    }
  }
}
