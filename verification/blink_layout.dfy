/** The layout as the code computes it, over its two arrays. */
module BlinkLayout {
  import opened Basics
  import opened BlinkHash
  import opened BlinkHasher
  import opened BlinkProbing
  import Map = BlinkMap

  /** The hash of every name in the table stands beside it. */
  ghost predicate Hashed(slots: Map.Slots, hashes: seq<nat>, hash: Map.HashFunction) {
    |hashes| == |slots| && forall i :: 0 <= i < |slots| && slots[i] != "" ==> hashes[i] == hash(slots[i])
  }

  ghost predicate HasRoom(slots: Map.Slots) {
    PowerOfTwo(|slots|) && |slots| > 0 && exists free :: 0 <= free < |slots| && slots[free] == ""
  }

  /** The probe loop: the bucket of the name, or the empty one it gets. */
  method Probe(slots: array<Name>, name: Name, h: nat) returns (i: nat, met: bool)
    requires HasRoom(slots[..]) && name != ""
    ensures met == !Map.Fits(slots[..], name, h)
    ensures i < slots.Length && (!met ==> i == Bucket(h, Map.Stop(slots[..], name, h, 0), slots.Length))
  {
    ghost var s := slots[..];
    ghost var free :| 0 <= free < |s| && s[free] == "";
    ghost var last := EveryBucketProbed(h, |s|, free);
    i := FirstProbe(h, slots.Length);
    var k := 1;
    while slots[i] != ""
      invariant 1 <= k <= last + 1 && i == Bucket(h, k - 1, |s|)
      invariant Map.Stop(s, name, h, 0) == Map.Stop(s, name, h, k - 1)
      decreases last + 1 - k
    {
      if EqualFold(slots[i], name) {
        return i, true;
      }
      i := NextProbe(h, i, k, slots.Length);
      k := k + 1;
    }
    met := false;
  }

  method Place(slots: array<Name>, hashes: array<nat>, name: Name, h: nat, ghost hash: Map.HashFunction)
    returns (placed: bool)
    requires Hashed(slots[..], hashes[..], hash) && HasRoom(slots[..]) && name != "" && h == hash(name)
    modifies slots, hashes
    ensures placed == Map.Fits(old(slots[..]), name, h)
    ensures slots[..] == Map.Place(old(slots[..]), name, h)
    ensures Hashed(slots[..], hashes[..], hash)
  {
    var i, met := Probe(slots, name, h);
    if met {
      return false;
    }
    slots[i], hashes[i] := name, h;
    assert slots[..] == old(slots[..])[i := name];
    placed := true;
  }

  lemma RoomToRefill(was: Map.Slots, n: nat, size: nat, hash: Map.HashFunction)
    requires n <= |was| < size && Map.Distinct(was) && PowerOfTwo(size)
    ensures HasRoom(Map.Refill(was, n, size, hash))
  {
    Map.RefillInv(was, n, size, hash);
    var free := Map.FreeBucket(Map.Refill(was, n, size, hash), size);
  }

  /** One turn of rehash's loop. */
  method Replace(slots: array<Name>, hashes: array<nat>, name: Name, h: nat,
                 ghost was: Map.Slots, ghost n: nat, ghost hash: Map.HashFunction)
    requires n < |was| < slots.Length && Map.Distinct(was) && PowerOfTwo(slots.Length)
    requires slots[..] == Map.Refill(was, n, slots.Length, hash) && Hashed(slots[..], hashes[..], hash)
    requires name == was[n] && (name != "" ==> h == hash(name))
    modifies slots, hashes
    ensures slots[..] == Map.Refill(was, n + 1, slots.Length, hash) && Hashed(slots[..], hashes[..], hash)
  {
    if name != "" {
      RoomToRefill(was, n, slots.Length, hash);
      var placed := Place(slots, hashes, name, h, hash);
    }
  }

  method EmptyTable(size: nat, ghost hash: Map.HashFunction) returns (slots: array<Name>, hashes: array<nat>)
    ensures fresh(slots) && fresh(hashes) && slots[..] == Map.Empty(size) && Hashed(slots[..], hashes[..], hash)
  {
    slots, hashes := new Name[size](_ => ""), new nat[size](_ => 0);
  }

  /** The old table's names, in bucket order, placed in a new one. */
  method Rehash(was: array<Name>, wasHashes: array<nat>, size: nat, ghost hash: Map.HashFunction)
    returns (slots: array<Name>, hashes: array<nat>)
    requires Hashed(was[..], wasHashes[..], hash) && was.Length < size && PowerOfTwo(size) && Map.Distinct(was[..])
    ensures fresh(slots) && fresh(hashes) && Hashed(slots[..], hashes[..], hash)
    ensures slots[..] == Map.Refill(was[..], was.Length, size, hash)
  {
    slots, hashes := EmptyTable(size, hash);
    ghost var before := was[..];
    var n := 0;
    while n < was.Length
      invariant n <= was.Length && was[..] == before && Hashed(before, wasHashes[..], hash)
      invariant slots[..] == Map.Refill(before, n, size, hash) && Hashed(slots[..], hashes[..], hash)
      modifies slots, hashes
    {
      Replace(slots, hashes, was[n], wasHashes[n], before, n, hash);
      n := n + 1;
    }
  }

  /** A table between insertions has room, and a name that fits is one more. */
  lemma GoodPlace(t: Map.Slots, name: Name, hash: Map.HashFunction)
    requires Map.Good(t, hash) && t != [] && Map.Insensitive(hash) && name != ""
    ensures HasRoom(t)
    ensures var u := Map.Place(t, name, hash(name));
            && Map.Inv(u, hash)
            && Map.Count(u) == Map.Count(t) + if Map.Fits(t, name, hash(name)) then 1 else 0
  {
    var free := Map.FreeBucket(t, |t|);
    if Map.Holds(t, name) {
      Map.PlaceHeld(t, name, hash);
    } else {
      Map.PlaceStep(t, name, hash);
    }
  }

  lemma GrownCount(u: Map.Slots, hash: Map.HashFunction)
    requires Map.Inv(u, hash)
    ensures Map.Count(Map.Grown(u, hash)) == Map.Count(u) && PowerOfTwo(2 * |u|)
  {
    Doubled(|u|);
    Map.RefillInv(u, |u|, 2 * |u|, hash);
  }

  /** blinkLayout's count and doubling after a placement. */
  method Grow(slots: array<Name>, hashes: array<nat>, count: nat, ghost hash: Map.HashFunction)
    returns (slots': array<Name>, hashes': array<nat>)
    requires Hashed(slots[..], hashes[..], hash) && Map.Inv(slots[..], hash) && count == Map.Count(slots[..])
    ensures slots' == slots || fresh(slots')
    ensures hashes' == hashes || fresh(hashes')
    ensures slots'[..] == Map.Grown(slots[..], hash) && Hashed(slots'[..], hashes'[..], hash)
    ensures count == Map.Count(slots'[..])
  {
    slots', hashes' := slots, hashes;
    GrownCount(slots[..], hash);
    if count * 2 >= slots.Length {
      slots', hashes' := Rehash(slots, hashes, slots.Length * 2, hash);
    }
  }

  /** The first name makes a table of eight buckets. */
  method Started(slots: array<Name>, hashes: array<nat>, ghost hash: Map.HashFunction)
    returns (slots': array<Name>, hashes': array<nat>)
    requires Hashed(slots[..], hashes[..], hash)
    ensures slots' == slots || fresh(slots')
    ensures hashes' == hashes || fresh(hashes')
    ensures slots'[..] == Map.Started(slots[..]) && Hashed(slots'[..], hashes'[..], hash)
  {
    slots', hashes' := slots, hashes;
    if slots.Length == 0 {
      Map.EightIsPower();
      slots', hashes' := Rehash(slots, hashes, 8, hash);
    }
  }

  /** One nonempty name of blinkLayout's loop. */
  method Insert(slots: array<Name>, hashes: array<nat>, count: nat, name: Name, h: nat, ghost hash: Map.HashFunction)
    returns (slots': array<Name>, hashes': array<nat>, count': nat)
    requires Hashed(slots[..], hashes[..], hash) && Map.Good(slots[..], hash) && Map.Insensitive(hash)
    requires name != "" && h == hash(name) && count == Map.Count(slots[..])
    modifies slots, hashes
    ensures slots' == slots || fresh(slots')
    ensures hashes' == hashes || fresh(hashes')
    ensures slots'[..] == Map.Insert(old(slots[..]), name, hash)
    ensures Hashed(slots'[..], hashes'[..], hash) && count' == Map.Count(slots'[..])
  {
    count' := count;
    Map.StartedGood(slots[..], hash);
    slots', hashes' := Started(slots, hashes, hash);
    GoodPlace(slots'[..], name, hash);
    var placed := Place(slots', hashes', name, h, hash);
    if placed {
      count' := count' + 1;
      slots', hashes' := Grow(slots', hashes', count', hash);
    }
  }

  /** One turn of blinkLayout's loop. */
  method Turn(slots: array<Name>, hashes: array<nat>, count: nat, names: seq<Name>, n: nat,
              ghost hash: Map.HashFunction)
    returns (slots': array<Name>, hashes': array<nat>, count': nat)
    requires n < |names| && hash == Hash && Map.Good(slots[..], hash)
    requires Hashed(slots[..], hashes[..], hash) && count == Map.Count(slots[..])
    modifies slots, hashes
    ensures slots' == slots || fresh(slots')
    ensures hashes' == hashes || fresh(hashes')
    ensures old(slots[..]) == Map.Fill(names, n, hash) ==> slots'[..] == Map.Fill(names, n + 1, hash)
    ensures Hashed(slots'[..], hashes'[..], hash) && count' == Map.Count(slots'[..])
  {
    slots', hashes', count' := slots, hashes, count;
    if names[n] != "" {
      var h := BlinkHashOf(names[n]);
      slots', hashes', count' := Insert(slots, hashes, count, names[n], h, hash);
    }
  }

  method Collect(slots: array<Name>) returns (out: seq<Name>)
    ensures out == Map.Kept(slots[..], slots.Length)
  {
    out := [];
    var i := 0;
    while i < slots.Length
      invariant i <= slots.Length && out == Map.Kept(slots[..], i)
    {
      if slots[i] != "" {
        out := out + [slots[i]];
      }
      i := i + 1;
    }
  }

  /** blinkLayout. */
  method Layout(names: seq<Name>) returns (out: seq<Name>)
    ensures out == Map.Layout(names, Hash)
  {
    var slots, hashes, count := new Name[0], new nat[0], 0;
    ghost var hash: Map.HashFunction := Hash;
    var n := 0;
    while n < |names|
      invariant n <= |names| && fresh(slots) && fresh(hashes)
      invariant slots[..] == Map.Fill(names, n, hash) && count == Map.Count(slots[..])
      invariant Hashed(slots[..], hashes[..], hash)
    {
      Map.FillGood(names, n, hash);
      slots, hashes, count := Turn(slots, hashes, count, names, n, hash);
      n := n + 1;
    }
    out := Collect(slots);
  }
}
