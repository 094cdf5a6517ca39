/** The header field tables of HPACK (sections 2.3, 4.1 and 4.4 of RFC 7541) as the
    encoder and the decoder keep them: entries oldest first, two maps from a name or a
    name-value pair to the newest entry that has it, and eviction by size. */
module HpackTable {
  import opened Basics
  import opened HpackVarInt

  /** The encoder's uint32 counters. */
  type Word = x: int | 0 <= x < 0x1_0000_0000

  /** Arithmetic on uint32 wraps. */
  function Truncate(x: int): (r: Word)
    ensures 0 <= x < 0x1_0000_0000 ==> r == x
  {
    if 0 <= x < 0x1_0000_0000 then x else x % 0x1_0000_0000
  }

  datatype Entry = Entry(name: Bytes, value: Bytes) {
    /** Size of an entry as the code computes it, truncation to 32 bits included. */
    function Size(): Word {
      Truncate(|name| + |value| + 32)
    }
  }

  /** Position of the newest entry with this name, -1 when there is none. */
  function LastName(ents: seq<Entry>, name: Bytes): (k: int)
    ensures -1 <= k < |ents|
    ensures k >= 0 ==> ents[k].name == name
  {
    var n := |ents| - 1;
    if n < 0 then -1 else if ents[n].name == name then n else LastName(ents[..n], name)
  }

  /** Position of the newest entry equal to e, -1 when there is none. */
  function LastEntry(ents: seq<Entry>, e: Entry): (k: int)
    ensures -1 <= k < |ents|
    ensures k >= 0 ==> ents[k] == e
  {
    var n := |ents| - 1;
    if n < 0 then -1 else if ents[n] == e then n else LastEntry(ents[..n], e)
  }

  /** Position of the newest entry equal to e, else of the newest one with its name, else -1;
      a sensitive field never matches by value. */
  function Find(ents: seq<Entry>, e: Entry, sensitive: bool): (r: (int, bool))
    ensures -1 <= r.0 < |ents| && (r.1 ==> r.0 >= 0 && !sensitive)
  {
    if !sensitive && LastEntry(ents, e) >= 0 then (LastEntry(ents, e), true)
    else (LastName(ents, e.name), false)
  }

  /** Position of the oldest entry with this name, -1 when there is none. */
  function FirstName(ents: seq<Entry>, name: Bytes): (k: int)
    ensures -1 <= k < |ents|
    ensures k >= 0 ==> ents[k].name == name
  {
    if ents == [] then -1
    else if ents[0].name == name then 0
    else
      var k := FirstName(ents[1..], name);
      if k < 0 then -1 else k + 1
  }

  lemma {:induction false} LastNameIsLast(ents: seq<Entry>, name: Bytes, j: nat)
    requires j < |ents| && ents[j].name == name
    ensures LastName(ents, name) >= j
  {
    var n := |ents| - 1;
    if ents[n].name != name {
      LastNameIsLast(ents[..n], name, j);
    }
  }

  lemma {:induction false} LastEntryIsLast(ents: seq<Entry>, e: Entry, j: nat)
    requires j < |ents| && ents[j] == e
    ensures LastEntry(ents, e) >= j
  {
    var n := |ents| - 1;
    if ents[n] != e {
      LastEntryIsLast(ents[..n], e, j);
    }
  }

  lemma {:induction false} FirstNameIsFirst(ents: seq<Entry>, name: Bytes, j: nat)
    requires j < |ents| && ents[j].name == name
    ensures 0 <= FirstName(ents, name) <= j
  {
    if ents[0].name != name {
      FirstNameIsFirst(ents[1..], name, j - 1);
    }
  }

  lemma LastNameDrop(ents: seq<Entry>, n: nat, name: Bytes)
    requires n <= |ents|
    ensures LastName(ents[n..], name) == if LastName(ents, name) >= n then LastName(ents, name) - n else -1
  {
    var k, j := LastName(ents, name), LastName(ents[n..], name);
    if j >= 0 {
      LastNameIsLast(ents, name, n + j);
    }
    if k >= n {
      LastNameIsLast(ents[n..], name, k - n);
    }
  }

  lemma LastEntryDrop(ents: seq<Entry>, n: nat, e: Entry)
    requires n <= |ents|
    ensures LastEntry(ents[n..], e) == if LastEntry(ents, e) >= n then LastEntry(ents, e) - n else -1
  {
    var k, j := LastEntry(ents, e), LastEntry(ents[n..], e);
    if j >= 0 {
      LastEntryIsLast(ents, e, n + j);
    }
    if k >= n {
      LastEntryIsLast(ents[n..], e, k - n);
    }
  }

  /** byName sends exactly the names present to the id of the newest entry that has them. */
  ghost predicate NamesIndexed(byName: map<Bytes, nat>, ents: seq<Entry>, evicted: nat) {
    && (forall n :: n in byName <==> LastName(ents, n) >= 0)
    && (forall n :: n in byName ==> byName[n] == evicted + LastName(ents, n) + 1)
  }

  /** The same for name-value pairs. */
  ghost predicate EntriesIndexed(byNameValue: map<Entry, nat>, ents: seq<Entry>, evicted: nat) {
    && (forall e :: e in byNameValue <==> LastEntry(ents, e) >= 0)
    && (forall e :: e in byNameValue ==> byNameValue[e] == evicted + LastEntry(ents, e) + 1)
  }

  /** What is left of a map once the ids up to last are gone. */
  ghost predicate Trimmed<K(!new)>(was: map<K, nat>, now: map<K, nat>, last: nat) {
    && (forall k :: k in now <==> k in was && was[k] > last)
    && (forall k :: k in now ==> now[k] == was[k])
  }

  lemma NamesDropped(was: map<Bytes, nat>, now: map<Bytes, nat>, ents: seq<Entry>, evicted: nat, n: nat)
    requires n <= |ents| && NamesIndexed(was, ents, evicted) && Trimmed(was, now, evicted + n)
    ensures NamesIndexed(now, ents[n..], evicted + n)
  {
    forall m ensures LastName(ents[n..], m) == if LastName(ents, m) >= n then LastName(ents, m) - n else -1 {
      LastNameDrop(ents, n, m);
    }
  }

  lemma EntriesDropped(was: map<Entry, nat>, now: map<Entry, nat>, ents: seq<Entry>, evicted: nat, n: nat)
    requires n <= |ents| && EntriesIndexed(was, ents, evicted) && Trimmed(was, now, evicted + n)
    ensures EntriesIndexed(now, ents[n..], evicted + n)
  {
    forall e ensures LastEntry(ents[n..], e) == if LastEntry(ents, e) >= n then LastEntry(ents, e) - n else -1 {
      LastEntryDrop(ents, n, e);
    }
  }

  /** Deletes a key if it points to this id. */
  function Forget<K>(m: map<K, nat>, k: K, id: nat): map<K, nat> {
    if k in m && m[k] == id then m - {k} else m
  }

  lemma ForgetName(was: map<Bytes, nat>, now: map<Bytes, nat>, ents: seq<Entry>, evicted: nat, k: nat)
    requires k < |ents| && NamesIndexed(was, ents, evicted) && Trimmed(was, now, evicted + k)
    ensures Trimmed(was, Forget(now, ents[k].name, evicted + k + 1), evicted + k + 1)
  {
    forall n | n in was && was[n] == evicted + k + 1 ensures n == ents[k].name {
      assert LastName(ents, n) == k;
    }
  }

  lemma ForgetEntry(was: map<Entry, nat>, now: map<Entry, nat>, ents: seq<Entry>, evicted: nat, k: nat)
    requires k < |ents| && EntriesIndexed(was, ents, evicted) && Trimmed(was, now, evicted + k)
    ensures Trimmed(was, Forget(now, ents[k], evicted + k + 1), evicted + k + 1)
  {
    forall e | e in was && was[e] == evicted + k + 1 ensures e == ents[k] {
      assert LastEntry(ents, e) == k;
    }
  }

  /** What is kept of both maps once the k oldest entries are gone. */
  ghost predicate BothTrimmed(wasNames: map<Bytes, nat>, names: map<Bytes, nat>,
                              wasPairs: map<Entry, nat>, pairs: map<Entry, nat>, last: nat)
  {
    Trimmed(wasNames, names, last) && Trimmed(wasPairs, pairs, last)
  }

  ghost predicate Indexed(names: map<Bytes, nat>, pairs: map<Entry, nat>, ents: seq<Entry>, evicted: nat) {
    NamesIndexed(names, ents, evicted) && EntriesIndexed(pairs, ents, evicted)
  }

  lemma ForgetBoth(wasNames: map<Bytes, nat>, names: map<Bytes, nat>, wasPairs: map<Entry, nat>,
                   pairs: map<Entry, nat>, ents: seq<Entry>, evicted: nat, k: nat)
    requires k < |ents| && Indexed(wasNames, wasPairs, ents, evicted)
    requires BothTrimmed(wasNames, names, wasPairs, pairs, evicted + k)
    ensures BothTrimmed(wasNames, Forget(names, ents[k].name, evicted + k + 1),
                        wasPairs, Forget(pairs, ents[k], evicted + k + 1), evicted + k + 1)
  {
    ForgetName(wasNames, names, ents, evicted, k);
    ForgetEntry(wasPairs, pairs, ents, evicted, k);
  }

  lemma BothStart(names: map<Bytes, nat>, pairs: map<Entry, nat>, ents: seq<Entry>, evicted: nat)
    requires Indexed(names, pairs, ents, evicted)
    ensures BothTrimmed(names, names, pairs, pairs, evicted)
  {}

  lemma BothDropped(wasNames: map<Bytes, nat>, names: map<Bytes, nat>, wasPairs: map<Entry, nat>,
                    pairs: map<Entry, nat>, ents: seq<Entry>, evicted: nat, n: nat)
    requires n <= |ents| && Indexed(wasNames, wasPairs, ents, evicted)
    requires BothTrimmed(wasNames, names, wasPairs, pairs, evicted + n)
    ensures Indexed(names, pairs, ents[n..], evicted + n)
  {
    NamesDropped(wasNames, names, ents, evicted, n);
    EntriesDropped(wasPairs, pairs, ents, evicted, n);
  }

  lemma IndexedAppend(names: map<Bytes, nat>, pairs: map<Entry, nat>, ents: seq<Entry>, evicted: nat, e: Entry)
    requires Indexed(names, pairs, ents, evicted)
    ensures Indexed(names[e.name := |ents| + evicted + 1], pairs[e := |ents| + evicted + 1], ents + [e], evicted)
  {
    forall n ensures LastName(ents + [e], n) == if e.name == n then |ents| else LastName(ents, n) {}
    forall x ensures LastEntry(ents + [e], x) == if e == x then |ents| else LastEntry(ents, x) {}
  }

  /** A list of entries with its two search maps; ids are stable across evictions. */
  class HeaderFieldTable {
    var ents: seq<Entry>
    var evictCount: nat
    var byName: map<Bytes, nat>
    var byNameValue: map<Entry, nat>

    ghost predicate Valid()
      reads this
    {
      Indexed(byName, byNameValue, ents, evictCount)
    }

    constructor ()
      ensures Valid() && ents == [] && evictCount == 0
    {
      ents, evictCount, byName, byNameValue := [], 0, map[], map[];
    }

    method AddEntry(e: Entry)
      requires Valid()
      modifies this
      ensures Valid() && ents == old(ents) + [e] && evictCount == old(evictCount)
    {
      var id := |ents| + evictCount + 1;
      IndexedAppend(byName, byNameValue, ents, evictCount, e);
      byName := byName[e.name := id];
      byNameValue := byNameValue[e := id];
      ents := ents + [e];
    }

    /** Drops the n oldest entries; a map entry goes with the entry it points to. */
    method EvictOldest(n: nat)
      requires Valid() && n <= |ents|
      modifies this
      ensures Valid() && ents == old(ents)[n..] && evictCount == old(evictCount) + n
    {
      var all, evicted, names, pairs := ents, evictCount, byName, byNameValue;
      ghost var wasNames, wasPairs := byName, byNameValue;
      BothStart(names, pairs, all, evicted);
      for k := 0 to n
        invariant BothTrimmed(wasNames, names, wasPairs, pairs, evicted + k)
        modifies {}
      {
        ForgetBoth(wasNames, names, wasPairs, pairs, all, evicted, k);
        names := Forget(names, all[k].name, evicted + k + 1);
        pairs := Forget(pairs, all[k], evicted + k + 1);
      }
      BothDropped(wasNames, names, wasPairs, pairs, all, evicted, n);
      byName, byNameValue := names, pairs;
      ents, evictCount := all[n..], evicted + n;
    }

    method Search(e: Entry, sensitive: bool) returns (k: int, found: bool)
      requires Valid()
      ensures (k, found) == Find(ents, e, sensitive)
    {
      if !sensitive && e in byNameValue {
        return byNameValue[e] - evictCount - 1, true;
      }
      if e.name in byName {
        return byName[e.name] - evictCount - 1, false;
      }
      return -1, false;
    }
  }

  /** Eviction from position k on: the position it stops at and the size that leaves. */
  function Excess(ents: seq<Entry>, k: nat, size: Word, maxSize: Word): (r: (nat, Word))
    requires k <= |ents|
    ensures k <= r.0 <= |ents|
    decreases |ents| - k
  {
    if size > maxSize && k < |ents| then
      Excess(ents, k + 1, Truncate(size - ents[k].Size()), maxSize)
    else (k, size)
  }

  /** A dynamic table as a value: what the encoder and its peer must agree on. */
  datatype Table = Table(ents: seq<Entry>, size: Word, maxSize: Word) {
    /** Drops oldest entries while the size is past the limit. */
    function Evicted(): Table {
      var r := Excess(ents, 0, size, maxSize);
      Table(ents[r.0..], r.1, maxSize)
    }

    function Grown(e: Entry): Table {
      Table(ents + [e], Truncate(size + e.Size()), maxSize)
    }

    function Add(e: Entry): Table {
      Grown(e).Evicted()
    }

    function Resize(v: Word): Table {
      Table(ents, size, v).Evicted()
    }

    /** The size field is the true sum of section 4.1 and within the limit of section 4.2. */
    predicate Exact() {
      size == SumSizes(ents) && size <= maxSize
    }
  }

  /** The table's size by section 4.1 of RFC 7541, in unbounded arithmetic. */
  function SumSizes(ents: seq<Entry>): nat {
    if ents == [] then 0 else |ents[0].name| + |ents[0].value| + 32 + SumSizes(ents[1..])
  }

  /** The encoder's and the decoder's dynamic table: entries, byte count and limit. */
  class DynamicTable {
    const table: HeaderFieldTable
    var size: Word
    var maxSize: Word

    ghost predicate Valid()
      reads this, table
    {
      table.Valid()
    }

    function Contents(): Table
      reads this, table
    {
      Table(table.ents, size, maxSize)
    }

    constructor (maxSize: Word)
      ensures Valid() && fresh(table)
      ensures Contents() == Table([], 0, maxSize)
    {
      table := new HeaderFieldTable();
      this.size, this.maxSize := 0, maxSize;
    }

    method Add(e: Entry)
      requires Valid()
      modifies this, table
      ensures Valid() && Contents() == old(Contents()).Add(e)
    {
      Grow(e);
      Evict();
    }

    method Grow(e: Entry)
      requires Valid()
      modifies this, table
      ensures Valid() && Contents() == old(Contents()).Grown(e)
    {
      table.AddEntry(e);
      size := Truncate(size + e.Size());
    }

    method Evict()
      requires Valid()
      modifies this, table
      ensures Valid() && Contents() == old(Contents()).Evicted()
    {
      var ents, limit, n := table.ents, maxSize, 0;
      var left: Word := size;
      while left > limit && n < |ents|
        invariant n <= |ents| && Excess(ents, n, left, limit) == Excess(ents, 0, size, limit)
        decreases |ents| - n
        modifies {}
      {
        left := Truncate(left - ents[n].Size());
        n := n + 1;
      }
      table.EvictOldest(n);
      size := left;
    }
  }
}
