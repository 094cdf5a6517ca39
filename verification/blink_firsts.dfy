/** The layout is the first spelling of every name, whatever was repeated. */
module BlinkFirsts {
  import opened BlinkHash
  import opened BlinkMap

  lemma {:induction false} KeptMembers(slots: Slots, n: nat, x: Name)
    requires n <= |slots|
    ensures x in Kept(slots, n) <==> x != "" && x in slots[..n]
  {
    if n > 0 {
      KeptMembers(slots, n - 1, x);
      assert slots[..n] == slots[..n - 1] + [slots[n - 1]];
    }
  }

  lemma {:induction false} KeptDistinct(slots: Slots, n: nat)
    requires n <= |slots| && Distinct(slots)
    ensures forall i, j :: 0 <= i < j < |Kept(slots, n)| ==> !EqualFold(Kept(slots, n)[i], Kept(slots, n)[j])
  {
    if n > 0 {
      KeptDistinct(slots, n - 1);
      var before := Kept(slots, n - 1);
      forall i | 0 <= i < |before| && slots[n - 1] != ""
        ensures !EqualFold(before[i], slots[n - 1])
      {
        KeptMembers(slots, n - 1, before[i]);
      }
    }
  }

  /** The layout is the first spellings of the names, each once, and no two spellings of one name. */
  lemma LayoutIsFirsts(names: seq<Name>, hash: HashFunction)
    requires Insensitive(hash)
    ensures forall x: Name :: x in Layout(names, hash) <==> FirstSpelling(names, |names|, x)
    ensures forall i, j :: 0 <= i < j < |Layout(names, hash)| ==>
              !EqualFold(Layout(names, hash)[i], Layout(names, hash)[j])
  {
    FillGood(names, |names|, hash);
    var slots := Fill(names, |names|, hash);
    KeptDistinct(slots, |slots|);
    assert slots[..|slots|] == slots;
    forall x: Name ensures x in Layout(names, hash) <==> FirstSpelling(names, |names|, x) {
      KeptMembers(slots, |slots|, x);
    }
  }

  /** Every nonempty name is in the layout, in one place and one spelling. */
  lemma EachNameOnce(names: seq<Name>, hash: HashFunction, j: nat) returns (at: nat)
    requires Insensitive(hash) && j < |names| && names[j] != ""
    ensures at < |Layout(names, hash)| && EqualFold(Layout(names, hash)[at], names[j])
    ensures forall i :: 0 <= i < |Layout(names, hash)| && i != at ==> !EqualFold(Layout(names, hash)[i], names[j])
  {
    LayoutIsFirsts(names, hash);
    var f := FirstExists(names, j);
    assert FirstSpelling(names, |names|, names[f]);
    at :| 0 <= at < |Layout(names, hash)| && Layout(names, hash)[at] == names[f];
  }

  // ---- Repetitions do not matter ----

  /** The names without empty ones and without later spellings. */
  ghost function Deduplicated(names: seq<Name>, n: nat): seq<Name>
    requires n <= |names|
  {
    if n == 0 then []
    else Deduplicated(names, n - 1) + (if IsFirst(names, n - 1) then [names[n - 1]] else [])
  }

  lemma {:induction false} FillPrefix(a: seq<Name>, b: seq<Name>, n: nat, hash: HashFunction)
    requires n <= |a| && n <= |b| && forall i :: 0 <= i < n ==> a[i] == b[i]
    ensures Fill(a, n, hash) == Fill(b, n, hash)
  {
    if n > 0 {
      FillPrefix(a, b, n - 1, hash);
    }
  }

  lemma FillAppend(d: seq<Name>, name: Name, hash: HashFunction)
    ensures Fill(d + [name], |d + [name]|, hash) == Insert(Fill(d, |d|, hash), name, hash)
  {
    FillPrefix(d, d + [name], |d|, hash);
  }

  lemma RepeatSkipped(names: seq<Name>, n: nat, hash: HashFunction)
    requires n < |names| && Insensitive(hash) && !IsFirst(names, n)
    ensures Fill(names, n + 1, hash) == Fill(names, n, hash)
  {
    FillGood(names, n, hash);
    if names[n] != "" {
      HeldIffSeen(Fill(names, n, hash), names, n);
      InsertHeld(Fill(names, n, hash), names[n], hash);
    }
  }

  lemma DeduplicatedNext(names: seq<Name>, n: nat, d: seq<Name>, hash: HashFunction)
    requires n < |names| && Insensitive(hash)
    requires d == Deduplicated(names, n) && Fill(d, |d|, hash) == Fill(names, n, hash)
    ensures var e := Deduplicated(names, n + 1); Fill(e, |e|, hash) == Fill(names, n + 1, hash)
  {
    var e := Deduplicated(names, n + 1);
    if IsFirst(names, n) {
      assert e == d + [names[n]];
      FillAppend(d, names[n], hash);
    } else {
      assert e == d;
      RepeatSkipped(names, n, hash);
    }
  }

  lemma {:induction false} FillDeduplicated(names: seq<Name>, n: nat, hash: HashFunction)
    requires n <= |names| && Insensitive(hash)
    ensures var d := Deduplicated(names, n); Fill(d, |d|, hash) == Fill(names, n, hash)
  {
    if n > 0 {
      FillDeduplicated(names, n - 1, hash);
      DeduplicatedNext(names, n - 1, Deduplicated(names, n - 1), hash);
    }
  }

  /** The layout of the names is the layout of their first spellings. */
  lemma LayoutIgnoresRepeats(names: seq<Name>, hash: HashFunction)
    requires Insensitive(hash)
    ensures Layout(names, hash) == Layout(Deduplicated(names, |names|), hash)
  {
    FillDeduplicated(names, |names|, hash);
  }
}
