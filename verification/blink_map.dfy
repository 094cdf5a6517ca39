/** Blink's header map: an open-addressing table keyed by names up to case, doubled when half full
    and refilled in bucket order. The hash is a parameter that must not tell spellings apart. */
module BlinkMap {
  import opened Basics
  import opened BlinkHash
  import opened BlinkProbing

  type Slots = seq<Name>
  type HashFunction = Name -> nat

  ghost predicate Insensitive(hash: HashFunction) {
    forall a: Name, b: Name :: EqualFold(a, b) ==> hash(a) == hash(b)
  }

  // ---- What the code computes ----

  /** The first probe, from the k-th on, that meets an empty bucket or the name. */
  function Stop(slots: Slots, name: Name, h: nat, k: nat): (r: nat)
    requires |slots| > 0 && k <= |slots|
    ensures k <= r <= |slots|
    decreases |slots| - k
  {
    if k == |slots| then k
    else
      var found := slots[Bucket(h, k, |slots|)];
      if found == "" || EqualFold(found, name) then k else Stop(slots, name, h, k + 1)
  }

  /** The bucket a new name gets, if the name is new. */
  predicate Fits(slots: Slots, name: Name, h: nat)
    requires |slots| > 0
  {
    var k := Stop(slots, name, h, 0);
    k < |slots| && slots[Bucket(h, k, |slots|)] == ""
  }

  function Place(slots: Slots, name: Name, h: nat): (r: Slots)
    requires |slots| > 0
    ensures |r| == |slots|
  {
    if Fits(slots, name, h) then slots[Bucket(h, Stop(slots, name, h, 0), |slots|) := name] else slots
  }

  function Empty(size: nat): (r: Slots)
    ensures |r| == size && forall i :: 0 <= i < size ==> r[i] == ""
  {
    seq(size, _ => "")
  }

  /** The first n buckets of a table, placed in their order. */
  function Refill(was: Slots, n: nat, size: nat, hash: HashFunction): (r: Slots)
    requires n <= |was| && size > 0
    ensures |r| == size
  {
    if n == 0 then Empty(size)
    else
      var t := Refill(was, n - 1, size, hash);
      if was[n - 1] == "" then t else Place(t, was[n - 1], hash(was[n - 1]))
  }

  /** The names in bucket order. */
  function Kept(slots: Slots, n: nat): (r: seq<Name>)
    requires n <= |slots|
    ensures |r| <= n
  {
    if n == 0 then []
    else Kept(slots, n - 1) + (if slots[n - 1] == "" then [] else [slots[n - 1]])
  }

  function Count(slots: Slots): nat {
    |Kept(slots, |slots|)|
  }

  function Grown(slots: Slots, hash: HashFunction): Slots
    requires |slots| > 0
  {
    if 2 * Count(slots) >= |slots| then Refill(slots, |slots|, 2 * |slots|, hash) else slots
  }

  function Started(slots: Slots): (r: Slots)
    ensures |r| > 0
  {
    if slots == [] then Empty(8) else slots
  }

  function Insert(slots: Slots, name: Name, hash: HashFunction): Slots {
    if name == "" then slots
    else
      var t := Started(slots);
      if Fits(t, name, hash(name)) then Grown(Place(t, name, hash(name)), hash) else t
  }

  /** The table after the first n names. */
  function Fill(names: seq<Name>, n: nat, hash: HashFunction): Slots
    requires n <= |names|
  {
    if n == 0 then [] else Insert(Fill(names, n - 1, hash), names[n - 1], hash)
  }

  function Layout(names: seq<Name>, hash: HashFunction): seq<Name> {
    var slots := Fill(names, |names|, hash);
    Kept(slots, |slots|)
  }

  // ---- The table's invariant ----

  /** The first k probes meet no empty bucket. */
  ghost predicate Unbroken(slots: Slots, h: nat, k: nat)
    requires |slots| > 0
  {
    forall j :: 0 <= j < k ==> slots[Bucket(h, j, |slots|)] != ""
  }

  /** Probing for h reaches bucket i before any empty one. */
  ghost predicate OnPath(slots: Slots, h: nat, i: nat)
    requires |slots| > 0
  {
    exists k :: 0 <= k < |slots| && Bucket(h, k, |slots|) == i && Unbroken(slots, h, k)
  }

  ghost predicate Distinct(slots: Slots) {
    forall i, j :: 0 <= i < |slots| && 0 <= j < |slots| && slots[i] != "" && EqualFold(slots[i], slots[j]) ==> i == j
  }

  ghost predicate Inv(slots: Slots, hash: HashFunction) {
    && PowerOfTwo(|slots|) && |slots| > 0
    && Distinct(slots)
    && (forall i :: 0 <= i < |slots| && slots[i] != "" ==> OnPath(slots, hash(slots[i]), i))
  }

  ghost predicate Holds(slots: Slots, name: Name) {
    exists i :: 0 <= i < |slots| && slots[i] != "" && EqualFold(slots[i], name)
  }

  /** An unbroken path to the name's bucket ends the search at a bucket of that name. */
  lemma {:induction false} StopMeets(slots: Slots, name: Name, h: nat, j: nat, k: nat)
    requires 0 < |slots| && j <= k < |slots| && name != ""
    requires Unbroken(slots, h, k) && EqualFold(slots[Bucket(h, k, |slots|)], name)
    ensures var s := Stop(slots, name, h, j);
            s <= k && slots[Bucket(h, s, |slots|)] != "" && EqualFold(slots[Bucket(h, s, |slots|)], name)
    decreases k - j
  {
    if j < k {
      StopMeets(slots, name, h, j + 1, k);
    }
  }

  /** A name already in the table is found, and placing it again changes nothing. */
  lemma PlaceHeld(slots: Slots, name: Name, hash: HashFunction)
    requires Inv(slots, hash) && Insensitive(hash) && name != "" && Holds(slots, name)
    ensures !Fits(slots, name, hash(name)) && Place(slots, name, hash(name)) == slots
  {
    var i :| 0 <= i < |slots| && slots[i] != "" && EqualFold(slots[i], name);
    assert OnPath(slots, hash(slots[i]), i);
    var k :| 0 <= k < |slots| && Bucket(hash(name), k, |slots|) == i && Unbroken(slots, hash(name), k);
    StopMeets(slots, name, hash(name), 0, k);
  }

  /** With an empty bucket k on the way, the search for a name not in the table ends at the first one. */
  lemma {:induction false} StopEmpty(slots: Slots, name: Name, h: nat, j: nat, k: nat)
    requires 0 < |slots| && j <= k < |slots| && name != "" && !Holds(slots, name)
    requires slots[Bucket(h, k, |slots|)] == ""
    ensures var s := Stop(slots, name, h, j);
            && s <= k && slots[Bucket(h, s, |slots|)] == ""
            && forall p :: j <= p < s ==> slots[Bucket(h, p, |slots|)] != ""
    decreases k - j
  {
    if slots[Bucket(h, j, |slots|)] != "" {
      StopEmpty(slots, name, h, j + 1, k);
    }
  }

  /** Filling an empty bucket breaks no path. */
  lemma PathKept(slots: Slots, h: nat, i: nat, b: nat, name: Name)
    requires |slots| > 0 && b < |slots| && name != "" && OnPath(slots, h, i)
    ensures OnPath(slots[b := name], h, i)
  {
    var k :| 0 <= k < |slots| && Bucket(h, k, |slots|) == i && Unbroken(slots, h, k);
    assert Unbroken(slots[b := name], h, k);
  }

  lemma PlaceNew(slots: Slots, name: Name, hash: HashFunction, free: nat)
    requires Inv(slots, hash) && name != "" && !Holds(slots, name)
    requires free < |slots| && slots[free] == ""
    ensures Fits(slots, name, hash(name)) && Inv(Place(slots, name, hash(name)), hash)
    ensures exists b :: 0 <= b < |slots| && slots[b] == "" && Place(slots, name, hash(name)) == slots[b := name]
  {
    var h := hash(name);
    var k := EveryBucketProbed(h, |slots|, free);
    StopEmpty(slots, name, h, 0, k);
    var s := Stop(slots, name, h, 0);
    var b := Bucket(h, s, |slots|);
    var t := slots[b := name];
    forall i | 0 <= i < |t| && t[i] != ""
      ensures OnPath(t, hash(t[i]), i)
    {
      if i == b {
        assert Unbroken(t, h, s);
      } else {
        PathKept(slots, hash(t[i]), i, b, name);
      }
    }
  }

  // ---- Counting ----

  lemma {:induction false} KeptUpdate(slots: Slots, b: nat, name: Name, n: nat)
    requires b < |slots| && n <= |slots| && slots[b] == "" && name != ""
    ensures |Kept(slots[b := name], n)| == |Kept(slots, n)| + if b < n then 1 else 0
  {
    if n > 0 {
      KeptUpdate(slots, b, name, n - 1);
    }
  }

  /** A table with fewer names than buckets has an empty bucket. */
  lemma {:induction false} FreeBucket(slots: Slots, n: nat) returns (free: nat)
    requires n <= |slots| && |Kept(slots, n)| < n
    ensures free < n && slots[free] == ""
  {
    if slots[n - 1] == "" {
      free := n - 1;
    } else {
      free := FreeBucket(slots, n - 1);
    }
  }

  lemma {:induction false} KeptEmpty(slots: Slots, n: nat)
    requires n <= |slots| && forall i :: 0 <= i < n ==> slots[i] == ""
    ensures Kept(slots, n) == []
  {
    if n > 0 {
      KeptEmpty(slots, n - 1);
    }
  }

  lemma EmptyInv(size: nat, hash: HashFunction)
    requires PowerOfTwo(size) && size > 0
    ensures Inv(Empty(size), hash) && Count(Empty(size)) == 0
  {
    KeptEmpty(Empty(size), size);
  }

  lemma EightIsPower()
    ensures PowerOfTwo(8)
  {
    assert Pow2(3) == 8;
  }

  // ---- Doubling ----

  /** Same names, spelled the same. */
  ghost predicate SameNames(t: Slots, slots: Slots, n: nat)
    requires n <= |slots|
  {
    forall x :: x != "" ==> (x in t <==> x in slots[..n])
  }

  lemma NotHeldYet(was: Slots, n: nat, t: Slots)
    requires n < |was| && Distinct(was) && was[n] != "" && SameNames(t, was, n)
    ensures !Holds(t, was[n])
  {
    forall i | 0 <= i < |t| && t[i] != ""
      ensures !EqualFold(t[i], was[n])
    {
      assert t[i] in was[..n];
    }
  }

  lemma SameNamesStep(t: Slots, was: Slots, n: nat, b: nat)
    requires n < |was| && was[n] != "" && SameNames(t, was, n) && b < |t| && t[b] == ""
    ensures SameNames(t[b := was[n]], was, n + 1)
  {
    var u := t[b := was[n]];
    assert was[..n + 1] == was[..n] + [was[n]];
    forall x: Name | x != ""
      ensures x in u <==> x in was[..n + 1]
    {
      UpdateMembers(t, b, was[n], x);
    }
  }

  lemma UpdateMembers(t: Slots, b: nat, name: Name, x: Name)
    requires b < |t| && t[b] == "" && x != ""
    ensures x in t[b := name] <==> x in t || x == name
  {
    var u := t[b := name];
    if x in t {
      var i :| 0 <= i < |t| && t[i] == x;
      assert u[i] == x;
    }
    assert u[b] == name;
  }

  /** Placing a name the table lacks: the invariant, one more name, and no other change. */
  lemma PlaceStep(t: Slots, name: Name, hash: HashFunction)
    requires Inv(t, hash) && name != "" && !Holds(t, name) && Count(t) < |t|
    ensures Fits(t, name, hash(name))
    ensures var u := Place(t, name, hash(name)); Inv(u, hash) && Count(u) == Count(t) + 1
    ensures exists b :: 0 <= b < |t| && t[b] == "" && Place(t, name, hash(name)) == t[b := name]
  {
    var free := FreeBucket(t, |t|);
    PlaceNew(t, name, hash, free);
    var b :| 0 <= b < |t| && t[b] == "" && Place(t, name, hash(name)) == t[b := name];
    KeptUpdate(t, b, name, |t|);
  }

  lemma RefillStep(was: Slots, n: nat, t: Slots, hash: HashFunction)
    requires n < |was| && Distinct(was) && was[n] != "" && Inv(t, hash) && SameNames(t, was, n) && Count(t) < |t|
    ensures var u := Place(t, was[n], hash(was[n]));
            Inv(u, hash) && SameNames(u, was, n + 1) && Count(u) == Count(t) + 1
  {
    NotHeldYet(was, n, t);
    PlaceStep(t, was[n], hash);
    var b :| 0 <= b < |t| && t[b] == "" && Place(t, was[n], hash(was[n])) == t[b := was[n]];
    SameNamesStep(t, was, n, b);
  }

  ghost predicate Refilled(t: Slots, was: Slots, n: nat, hash: HashFunction)
    requires n <= |was|
  {
    Inv(t, hash) && SameNames(t, was, n) && Count(t) == |Kept(was, n)|
  }

  lemma RefillNext(t: Slots, was: Slots, n: nat, size: nat, hash: HashFunction)
    requires n < |was| < size && Distinct(was)
    requires t == Refill(was, n, size, hash) && Refilled(t, was, n, hash)
    ensures Refilled(Refill(was, n + 1, size, hash), was, n + 1, hash)
  {
    if was[n] != "" {
      RefillStep(was, n, t, hash);
    }
  }

  /** Refilling loses no name, spells none anew, and keeps every probe path whole. */
  lemma {:induction false} RefillInv(was: Slots, n: nat, size: nat, hash: HashFunction)
    requires n <= |was| < size && Distinct(was) && PowerOfTwo(size)
    ensures Refilled(Refill(was, n, size, hash), was, n, hash)
  {
    if n == 0 {
      EmptyInv(size, hash);
    } else {
      RefillInv(was, n - 1, size, hash);
      RefillNext(Refill(was, n - 1, size, hash), was, n - 1, size, hash);
    }
  }

  /** Between insertions a started table is less than half full. */
  ghost predicate Good(slots: Slots, hash: HashFunction) {
    slots == [] || (Inv(slots, hash) && |slots| >= 8 && 2 * Count(slots) < |slots|)
  }

  ghost predicate SameMembers(t: Slots, slots: Slots) {
    forall x: Name :: x != "" ==> (x in t <==> x in slots)
  }

  lemma GrownGood(slots: Slots, hash: HashFunction)
    requires Inv(slots, hash) && |slots| >= 8 && 2 * Count(slots) <= |slots| + 1
    ensures Good(Grown(slots, hash), hash) && SameMembers(Grown(slots, hash), slots)
  {
    if 2 * Count(slots) >= |slots| {
      Doubled(|slots|);
      RefillInv(slots, |slots|, 2 * |slots|, hash);
      assert slots[..|slots|] == slots;
    }
  }

  lemma StartedGood(slots: Slots, hash: HashFunction)
    requires Good(slots, hash)
    ensures Good(Started(slots), hash) && SameMembers(Started(slots), slots)
    ensures Count(Started(slots)) == Count(slots)
    ensures forall name: Name :: Holds(Started(slots), name) <==> Holds(slots, name)
  {
    EightIsPower();
    EmptyInv(8, hash);
    KeptEmpty(slots, 0);
  }

  /** Inserting a name the table holds in some spelling changes nothing, once the table is started. */
  lemma InsertHeld(slots: Slots, name: Name, hash: HashFunction)
    requires Good(slots, hash) && Insensitive(hash) && name != "" && Holds(slots, name)
    ensures Insert(slots, name, hash) == slots
  {
    PlaceHeld(slots, name, hash);
  }

  lemma InsertNew(slots: Slots, name: Name, hash: HashFunction)
    requires Good(slots, hash) && name != "" && !Holds(slots, name)
    ensures Good(Insert(slots, name, hash), hash)
    ensures forall x: Name :: x != "" ==> (x in Insert(slots, name, hash) <==> x in slots || x == name)
  {
    StartedGood(slots, hash);
    var t := Started(slots);
    PlaceStep(t, name, hash);
    var u := Place(t, name, hash(name));
    var b :| 0 <= b < |t| && t[b] == "" && u == t[b := name];
    GrownGood(u, hash);
    forall x: Name | x != ""
      ensures x in Insert(slots, name, hash) <==> x in slots || x == name
    {
      UpdateMembers(t, b, name, x);
    }
  }

  // ---- What a layout is, by the names alone ----

  /** The first of its spellings among the names. */
  ghost predicate IsFirst(names: seq<Name>, j: nat)
    requires j < |names|
  {
    names[j] != "" && forall i :: 0 <= i < j ==> !EqualFold(names[i], names[j])
  }

  ghost predicate FirstSpelling(names: seq<Name>, n: nat, x: Name)
    requires n <= |names|
  {
    exists j :: 0 <= j < n && IsFirst(names, j) && names[j] == x
  }

  /** Every name has a first spelling. */
  lemma {:induction false} FirstExists(names: seq<Name>, j: nat) returns (i: nat)
    requires j < |names| && names[j] != ""
    ensures i <= j && IsFirst(names, i) && EqualFold(names[i], names[j])
  {
    if i0 :| 0 <= i0 < j && EqualFold(names[i0], names[j]) {
      i := FirstExists(names, i0);
    } else {
      i := j;
    }
  }

  ghost predicate HoldsFirsts(slots: Slots, names: seq<Name>, n: nat)
    requires n <= |names|
  {
    forall x: Name :: x != "" ==> (x in slots <==> FirstSpelling(names, n, x))
  }

  lemma HeldIffSeen(slots: Slots, names: seq<Name>, n: nat)
    requires n < |names| && names[n] != "" && HoldsFirsts(slots, names, n)
    ensures Holds(slots, names[n]) <==> !IsFirst(names, n)
  {
    if Holds(slots, names[n]) {
      var i :| 0 <= i < |slots| && slots[i] != "" && EqualFold(slots[i], names[n]);
      assert slots[i] in slots;
    }
    if !IsFirst(names, n) {
      var i :| 0 <= i < n && EqualFold(names[i], names[n]);
      var f := FirstExists(names, i);
      assert FirstSpelling(names, n, names[f]);
      assert names[f] in slots;
    }
  }

  /** After any number of names: a table less than half full, its paths whole, holding the first
      spelling of each name. */
  lemma {:induction false} FillGood(names: seq<Name>, n: nat, hash: HashFunction)
    requires n <= |names| && Insensitive(hash)
    ensures Good(Fill(names, n, hash), hash) && HoldsFirsts(Fill(names, n, hash), names, n)
  {
    if n > 0 {
      var name := names[n - 1];
      var slots := Fill(names, n - 1, hash);
      FillGood(names, n - 1, hash);
      forall x
        ensures FirstSpelling(names, n, x) <==>
                FirstSpelling(names, n - 1, x) || (IsFirst(names, n - 1) && name == x)
      {}
      if name != "" {
        HeldIffSeen(slots, names, n - 1);
        if Holds(slots, name) {
          InsertHeld(slots, name, hash);
        } else {
          InsertNew(slots, name, hash);
        }
      }
    }
  }
}
