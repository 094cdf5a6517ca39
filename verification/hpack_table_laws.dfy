/** The dynamic table's size and eviction against sections 4.1 to 4.4 of RFC 7541. */
module HpackTableLaws {
  import opened Basics
  import opened HpackTable

  lemma SumSizesAppend(ents: seq<Entry>, e: Entry)
    ensures SumSizes(ents + [e]) == SumSizes(ents) + |e.name| + |e.value| + 32
  {
    if ents == [] {
      assert ents + [e] == [e];
    } else {
      assert (ents + [e])[1..] == ents[1..] + [e];
      SumSizesAppend(ents[1..], e);
    }
  }

  lemma {:induction false} ExcessExact(ents: seq<Entry>, k: nat, size: Word, maxSize: Word)
    requires k <= |ents| && size == SumSizes(ents[k..])
    ensures var (n, left) := Excess(ents, k, size, maxSize);
            && left == SumSizes(ents[n..]) && left <= maxSize
            && (n > k ==> SumSizes(ents[n - 1..]) > maxSize)
    decreases |ents| - k
  {
    if size > maxSize && k < |ents| {
      assert ents[k..][0] == ents[k] && ents[k..][1..] == ents[k + 1..];
      ExcessExact(ents, k + 1, size - ents[k].Size(), maxSize);
    }
  }

  /** The longest run of newest entries within a limit. */
  ghost predicate LongestFit(ents: seq<Entry>, n: nat, limit: nat, kept: seq<Entry>) {
    n <= |ents| && kept == ents[n..] && SumSizes(kept) <= limit && (n > 0 ==> SumSizes(ents[n - 1..]) > limit)
  }

  /** Eviction under the true sizes keeps the longest run of newest entries that fits. */
  lemma EvictedExact(t: Table)
    requires t.size == SumSizes(t.ents)
    ensures t.Evicted().Exact()
    ensures exists n :: LongestFit(t.ents, n, t.maxSize, t.Evicted().ents)
  {
    assert t.ents[0..] == t.ents;
    ExcessExact(t.ents, 0, t.size, t.maxSize);
    var n := Excess(t.ents, 0, t.size, t.maxSize).0;
    assert LongestFit(t.ents, n, t.maxSize, t.Evicted().ents);
  }

  /** Section 4.4 of RFC 7541: adding keeps the table exact and within its limit; an entry
      that fits survives its own insertion as the newest, one that does not empties the table. */
  lemma AddExact(t: Table, e: Entry)
    requires t.Exact() && t.size + |e.name| + |e.value| + 32 < 0x1_0000_0000
    ensures t.Add(e).Exact()
    ensures e.Size() <= t.maxSize ==> t.Add(e).ents != [] && t.Add(e).ents[|t.Add(e).ents| - 1] == e
    ensures e.Size() > t.maxSize ==> t.Add(e).ents == []
  {
    var g := t.Grown(e);
    GrownExact(t, e);
    EvictedExact(g);
    EvictedLast(g, e, g.Evicted());
  }

  /** Whether the last entry outlives an eviction. */
  lemma EvictedLast(g: Table, e: Entry, kept: Table)
    requires g.ents != [] && g.ents[|g.ents| - 1] == e
    requires exists n :: LongestFit(g.ents, n, g.maxSize, kept.ents)
    ensures |e.name| + |e.value| + 32 <= g.maxSize ==> kept.ents != [] && kept.ents[|kept.ents| - 1] == e
    ensures |e.name| + |e.value| + 32 > g.maxSize ==> kept.ents == []
  {
    var n :| LongestFit(g.ents, n, g.maxSize, kept.ents);
    CutLast(g.ents, n, e, g.maxSize, kept.ents);
  }

  lemma CutLast(ents: seq<Entry>, n: nat, e: Entry, limit: nat, kept: seq<Entry>)
    requires LongestFit(ents, n, limit, kept) && ents != [] && ents[|ents| - 1] == e
    ensures |e.name| + |e.value| + 32 <= limit ==> kept != [] && kept[|kept| - 1] == e
    ensures |e.name| + |e.value| + 32 > limit ==> kept == []
  {
    LastFits(ents, n, e, limit);
  }

  lemma GrownExact(t: Table, e: Entry)
    requires t.Exact() && t.size + |e.name| + |e.value| + 32 < 0x1_0000_0000
    ensures t.Grown(e).size == SumSizes(t.Grown(e).ents) && e.Size() == |e.name| + |e.value| + 32
  {
    SumSizesAppend(t.ents, e);
  }

  /** Of a list cut to the longest suffix within a limit, the last entry is left exactly if it fits alone. */
  lemma LastFits(ents: seq<Entry>, n: nat, e: Entry, limit: nat)
    requires n <= |ents| && ents != [] && ents[|ents| - 1] == e
    requires SumSizes(ents[n..]) <= limit && (n > 0 ==> SumSizes(ents[n - 1..]) > limit)
    ensures |e.name| + |e.value| + 32 <= limit <==> n < |ents|
  {
    if n == |ents| {
      assert ents[n - 1..] == [e];
      assert SumSizes([e]) == |e.name| + |e.value| + 32 + SumSizes([]);
    } else {
      SumSizesLast(ents[n..]);
    }
  }

  lemma SumSizesLast(ents: seq<Entry>)
    requires ents != []
    ensures var e := ents[|ents| - 1]; SumSizes(ents) >= |e.name| + |e.value| + 32
  {
    assert ents == ents[..|ents| - 1] + [ents[|ents| - 1]];
    SumSizesAppend(ents[..|ents| - 1], ents[|ents| - 1]);
  }
}
