/** The memory store: a map and a recency list that hold the same entries, and a byte count, refining
    a list of entries from the one used last to the one used longest ago. */
module CacheStore {
  import opened Basics
  import opened CacheFreshness

  type Body = seq<nat>

  /** A stored response. What the request carried for the names its Vary lists is none when Vary
      listed nothing. */
  datatype Entry = Entry(key: string, head: Stored, body: Body, vary: Option<map<string, string>>)

  // ---- The recency list ----

  function Total(size: Entry -> nat, l: seq<Entry>): nat {
    if l == [] then 0 else size(l[0]) + Total(size, l[1..])
  }

  ghost predicate OneKey(l: seq<Entry>) {
    forall i, j :: 0 <= i < j < |l| ==> l[i].key != l[j].key
  }

  function Find(l: seq<Entry>, key: string): (r: Option<Entry>)
    ensures r.Some? ==> r.value in l && r.value.key == key
    ensures r.None? ==> forall i :: 0 <= i < |l| ==> l[i].key != key
  {
    if l == [] then None else if l[0].key == key then Some(l[0]) else Find(l[1..], key)
  }

  function Without(l: seq<Entry>, key: string): seq<Entry> {
    if l == [] then []
    else if l[0].key == key then l[1..]
    else [l[0]] + Without(l[1..], key)
  }

  function PrefixTotal(size: Entry -> nat, l: seq<Entry>, n: nat): nat
    requires n <= |l|
  {
    Total(size, l[..n])
  }

  /** What remains after a put: the longest prefix of the recency list that fits, and at least the
      entry just put. */
  ghost predicate Fitting(size: Entry -> nat, max: int, l: seq<Entry>, n: nat) {
    && 1 <= n <= |l|
    && (n == 1 || PrefixTotal(size, l, n) <= max)
    && forall m :: n < m <= |l| ==> PrefixTotal(size, l, m) > max
  }

  lemma {:induction false} TotalAppend(size: Entry -> nat, l: seq<Entry>, e: Entry)
    ensures Total(size, l + [e]) == Total(size, l) + size(e)
  {
    if l == [] {
      assert l + [e] == [e];
    } else {
      assert (l + [e])[1..] == l[1..] + [e];
      TotalAppend(size, l[1..], e);
    }
  }

  /** What eviction has left of l so far. */
  ghost predicate Evicting(size: Entry -> nat, max: int, l: seq<Entry>, r: seq<Entry>) {
    && 1 <= |r| <= |l| && r == l[..|r|]
    && forall m :: |r| < m <= |l| ==> PrefixTotal(size, l, m) > max
  }

  lemma EvictingNext(size: Entry -> nat, max: int, l: seq<Entry>, r: seq<Entry>)
    requires Evicting(size, max, l, r) && |r| > 1 && Total(size, r) > max
    ensures Evicting(size, max, l, r[..|r| - 1])
  {
    var n := |r| - 1;
    assert r[..n] == l[..n];
    forall m | n < m <= |l|
      ensures PrefixTotal(size, l, m) > max
    {
      if m == |r| {
        assert PrefixTotal(size, l, m) == Total(size, r);
      }
    }
  }

  /** There is one such prefix. */
  lemma FittingUnique(size: Entry -> nat, max: int, l: seq<Entry>, n: nat, m: nat)
    requires Fitting(size, max, l, n) && Fitting(size, max, l, m)
    ensures n == m
  {}

  /** Taking an entry out takes its bytes out. */
  lemma {:induction false} TotalWithout(size: Entry -> nat, l: seq<Entry>, e: Entry)
    requires e in l && OneKey(l)
    ensures Total(size, Without(l, e.key)) == Total(size, l) - size(e)
  {
    if l[0].key == e.key {
      assert l[0] == e;
    } else {
      TotalWithout(size, l[1..], e);
    }
  }

  lemma {:induction false} WithoutMember(l: seq<Entry>, key: string, x: Entry)
    requires OneKey(l)
    ensures x in Without(l, key) <==> x in l && x.key != key
  {
    if l != [] && l[0].key != key {
      WithoutMember(l[1..], key, x);
    }
  }

  lemma {:induction false} WithoutOneKey(l: seq<Entry>, key: string)
    requires OneKey(l)
    ensures OneKey(Without(l, key)) && Find(Without(l, key), key) == None
  {
    if l != [] && l[0].key != key {
      WithoutOneKey(l[1..], key);
      var r := Without(l[1..], key);
      forall j | 0 <= j < |r|
        ensures r[j].key != l[0].key
      {
        WithoutMember(l[1..], key, r[j]);
      }
    }
  }

  lemma {:induction false} WithoutAbsent(l: seq<Entry>, key: string)
    requires Find(l, key) == None
    ensures Without(l, key) == l
  {
    if l != [] {
      WithoutAbsent(l[1..], key);
    }
  }

  // ---- The store ----

  /** A list element holds one entry. */
  class Element {
    const entry: Entry
    constructor (entry: Entry)
      ensures this.entry == entry
    {
      this.entry := entry;
    }
  }

  function Entries(lru: seq<Element>): (r: seq<Entry>)
    ensures |r| == |lru| && forall i :: 0 <= i < |r| ==> r[i] == lru[i].entry
  {
    seq(|lru|, i requires 0 <= i < |lru| => lru[i].entry)
  }

  /** The list's own removal of an element. */
  function Removed(lru: seq<Element>, el: Element): seq<Element> {
    if lru == [] then [] else if lru[0] == el then lru[1..] else [lru[0]] + Removed(lru[1..], el)
  }

  /** Map and list hold the same elements, one for each key. */
  ghost predicate Linked(items: map<string, Element>, lru: seq<Element>) {
    OneKey(Entries(lru)) && Listed(items, lru) && Mapped(items, lru)
  }

  ghost predicate Listed(items: map<string, Element>, lru: seq<Element>) {
    forall el :: el in lru ==> el.entry.key in items && items[el.entry.key] == el
  }

  ghost predicate Mapped(items: map<string, Element>, lru: seq<Element>) {
    forall key :: key in items ==> items[key] in lru && items[key].entry.key == key
  }

  lemma {:induction false} RemovedEntries(lru: seq<Element>, el: Element)
    requires el in lru && OneKey(Entries(lru))
    ensures Entries(Removed(lru, el)) == Without(Entries(lru), el.entry.key)
  {
    var l := Entries(lru);
    assert Entries(lru[1..]) == l[1..];
    if lru[0] != el {
      var i :| 0 <= i < |lru| && lru[i] == el;
      assert l[i].key == el.entry.key;
      RemovedEntries(lru[1..], el);
      assert Entries([lru[0]] + Removed(lru[1..], el)) == [l[0]] + Entries(Removed(lru[1..], el));
    }
  }

  lemma {:induction false} RemovedMember(lru: seq<Element>, el: Element, x: Element)
    requires OneKey(Entries(lru))
    ensures x in Removed(lru, el) <==> x in lru && x != el
  {
    if lru != [] {
      assert Entries(lru[1..]) == Entries(lru)[1..];
      if lru[0] != el {
        RemovedMember(lru[1..], el, x);
      }
    }
  }

  lemma RemovedMembers(lru: seq<Element>, el: Element)
    requires OneKey(Entries(lru))
    ensures forall x :: x in Removed(lru, el) <==> x in lru && x != el
  {
    forall x ensures x in Removed(lru, el) <==> x in lru && x != el {
      RemovedMember(lru, el, x);
    }
  }

  lemma StillListed(items: map<string, Element>, lru: seq<Element>, el: Element, rest: seq<Element>)
    requires Listed(items, lru) && el in lru && forall x :: x in rest <==> x in lru && x != el
    ensures Listed(items - {el.entry.key}, rest)
  {}

  lemma StillMapped(items: map<string, Element>, lru: seq<Element>, el: Element, rest: seq<Element>)
    requires Mapped(items, lru) && el in lru && forall x :: x in rest <==> x in lru && x != el
    ensures Mapped(items - {el.entry.key}, rest)
  {}

  /** Taking an element out of both keeps them linked. */
  lemma Unlinked(items: map<string, Element>, lru: seq<Element>, el: Element)
    requires Linked(items, lru) && el in lru
    ensures Linked(items - {el.entry.key}, Removed(lru, el))
    ensures Entries(Removed(lru, el)) == Without(Entries(lru), el.entry.key)
  {
    RemovedEntries(lru, el);
    WithoutOneKey(Entries(lru), el.entry.key);
    RemovedMembers(lru, el);
    StillListed(items, lru, el, Removed(lru, el));
    StillMapped(items, lru, el, Removed(lru, el));
  }

  lemma Pushed(items: map<string, Element>, lru: seq<Element>, el: Element)
    requires Linked(items, lru) && el.entry.key !in items
    ensures Linked(items[el.entry.key := el], [el] + lru)
    ensures Entries([el] + lru) == [el.entry] + Entries(lru)
  {
    var l := Entries(lru);
    forall j | 0 <= j < |lru|
      ensures l[j].key != el.entry.key
    {
      assert lru[j] in lru;
    }
  }

  lemma FindsItem(items: map<string, Element>, lru: seq<Element>, key: string)
    requires Linked(items, lru)
    ensures Find(Entries(lru), key) == if key in items then Some(items[key].entry) else None
  {
    var l := Entries(lru);
    if key in items {
      var j :| 0 <= j < |lru| && lru[j] == items[key];
      assert l[j].key == key;
    }
    if Find(l, key).Some? {
      var j :| 0 <= j < |l| && l[j] == Find(l, key).value;
      assert lru[j] in lru;
    }
  }

  /** The last element of the list goes: what eviction does, one at a time. */
  lemma LastUnlinked(items: map<string, Element>, lru: seq<Element>)
    requires Linked(items, lru) && lru != []
    ensures var n := |lru| - 1; Linked(items - {lru[n].entry.key}, lru[..n]) && Entries(lru[..n]) == Entries(lru)[..n]
  {
    var n := |lru| - 1;
    var l := Entries(lru);
    forall x: Element
      ensures x in lru[..n] <==> x in lru && x != lru[n]
    {
      if x in lru[..n] {
        var j :| 0 <= j < n && lru[j] == x;
        assert l[j].key != l[n].key;
      }
    }
    StillListed(items, lru, lru[n], lru[..n]);
    StillMapped(items, lru, lru[n], lru[..n]);
  }

  /** Where an element goes to the front: what is behind it. */
  function Behind(items: map<string, Element>, lru: seq<Element>, key: string): seq<Element> {
    if key in items then Removed(lru, items[key]) else lru
  }

  function Held(items: map<string, Element>, key: string, size: Entry -> nat): nat {
    if key in items then size(items[key].entry) else 0
  }

  lemma BehindLinked(items: map<string, Element>, lru: seq<Element>, key: string, size: Entry -> nat)
    requires Linked(items, lru)
    ensures Linked(items - {key}, Behind(items, lru, key))
    ensures Entries(Behind(items, lru, key)) == Without(Entries(lru), key)
    ensures Total(size, Without(Entries(lru), key)) == Total(size, Entries(lru)) - Held(items, key, size)
  {
    FindsItem(items, lru, key);
    if key in items {
      Unlinked(items, lru, items[key]);
      TotalWithout(size, Entries(lru), items[key].entry);
    } else {
      WithoutAbsent(Entries(lru), key);
      assert items - {key} == items;
    }
  }

  /** An element moved, or a new one put in place of the one with its key. */
  lemma Fronted(items: map<string, Element>, lru: seq<Element>, el: Element, size: Entry -> nat)
    requires Linked(items, lru)
    ensures var l := [el] + Behind(items, lru, el.entry.key);
            && Linked(items[el.entry.key := el], l)
            && Entries(l) == [el.entry] + Without(Entries(lru), el.entry.key)
            && Total(size, Entries(l)) == size(el.entry) + Total(size, Entries(lru)) - Held(items, el.entry.key, size)
  {
    var key := el.entry.key;
    var behind := Behind(items, lru, key);
    BehindLinked(items, lru, key, size);
    Pushed(items - {key}, behind, el);
    Overwritten(items, key, el);
    var l := Entries([el] + behind);
    assert l[0] == el.entry && l[1..] == Entries(behind);
  }

  /** An element in the list moved to its front. */
  lemma Refronted(items: map<string, Element>, lru: seq<Element>, el: Element, size: Entry -> nat)
    requires Linked(items, lru) && el.entry.key in items && items[el.entry.key] == el
    ensures var l := [el] + Removed(lru, el);
            && Linked(items, l)
            && Entries(l) == [el.entry] + Without(Entries(lru), el.entry.key)
            && Total(size, Entries(l)) == Total(size, Entries(lru))
  {
    Fronted(items, lru, el, size);
    assert items[el.entry.key := el] == items;
  }

  lemma Overwritten(items: map<string, Element>, key: string, el: Element)
    ensures (items - {key})[key := el] == items[key := el]
  {}

  /** The last entry's bytes. */
  lemma TotalLast(size: Entry -> nat, l: seq<Entry>, n: nat)
    requires n < |l|
    ensures Total(size, l[..n + 1]) == Total(size, l[..n]) + size(l[n])
  {
    TotalAppend(size, l[..n], l[n]);
    assert l[..n + 1] == l[..n] + [l[n]];
  }

  class MemStore {
    const max: int
    const size: Entry -> nat
    var bytes: int
    var items: map<string, Element>
    var lru: seq<Element>

    /** The recency list the store stands for. */
    ghost function Recency(): seq<Entry>
      reads this
    {
      Entries(lru)
    }

    ghost predicate Valid()
      reads this
    {
      Linked(items, lru) && bytes == Total(size, Recency())
    }

    constructor (max: int, size: Entry -> nat)
      ensures Valid() && Recency() == [] && this.max == max && this.size == size
    {
      this.max, this.size := max, size;
      bytes, items, lru := 0, map[], [];
    }

    /** A hit becomes the entry used last; a miss changes nothing. */
    method Get(key: string) returns (e: Option<Entry>)
      requires Valid()
      modifies this`lru
      ensures Valid() && e == Find(old(Recency()), key)
      ensures Recency() == if e.Some? then [e.value] + Without(old(Recency()), key) else old(Recency())
    {
      FindsItem(items, lru, key);
      if key !in items {
        return None;
      }
      var el := items[key];
      Refronted(items, lru, el, size);
      lru := [el] + Removed(lru, el);
      e := Some(el.entry);
    }

    /** The new entry in front, the one it replaces gone, unbounded yet. */
    method Push(e: Entry)
      requires Valid()
      modifies this
      ensures Valid() && Recency() == [e] + Without(old(Recency()), e.key)
    {
      var was := lru;
      var el := new Element(e);
      Fronted(items, lru, el, size);
      if e.key in items {
        bytes := bytes - size(items[e.key].entry);
        was := Removed(lru, items[e.key]);
      }
      lru := [el] + was;
      items := items[e.key := el];
      bytes := bytes + size(e);
    }

    method DropLast()
      requires Valid() && |lru| > 0
      modifies this
      ensures Valid() && |lru| == old(|lru|) - 1 && Recency() == old(Recency())[..|old(Recency())| - 1]
    {
      var last := lru[|lru| - 1].entry;
      ghost var l := Recency();
      LastUnlinked(items, lru);
      TotalLast(size, l, |l| - 1);
      assert l[..|l|] == l;
      lru := lru[..|lru| - 1];
      items := items - {last.key};
      bytes := bytes - size(last);
    }

    /** One turn of the eviction loop. */
    method EvictOne(ghost l: seq<Entry>)
      requires Valid() && Evicting(size, max, l, Recency()) && bytes > max && |lru| > 1
      modifies this
      ensures Valid() && Evicting(size, max, l, Recency()) && |lru| == old(|lru|) - 1
    {
      EvictingNext(size, max, l, Recency());
      DropLast();
    }

    method Evict(ghost l: seq<Entry>)
      requires Valid() && Recency() == l && l != []
      modifies this
      ensures Valid() && Evicting(size, max, l, Recency()) && Fitting(size, max, l, |Recency()|)
    {
      assert l[..|l|] == l;
      while bytes > max && |lru| > 1
        invariant Valid() && Evicting(size, max, l, Recency())
        decreases |lru|
      {
        EvictOne(l);
      }
    }

    /** What is left is the longest recent part that fits, and never less than the new entry. */
    method Put(e: Entry)
      requires Valid()
      modifies this
      ensures Valid()
      ensures var l := [e] + Without(old(Recency()), e.key);
              Fitting(size, max, l, |Recency()|) && Recency() == l[..|Recency()|]
    {
      Push(e);
      Evict(Recency());
    }

    method Remove(key: string)
      requires Valid()
      modifies this
      ensures Valid() && Recency() == Without(old(Recency()), key)
    {
      FindsItem(items, lru, key);
      if key in items {
        var el := items[key];
        Unlinked(items, lru, el);
        TotalWithout(size, Recency(), el.entry);
        bytes := bytes - size(el.entry);
        lru := Removed(lru, el);
        items := items - {key};
      } else {
        WithoutAbsent(Recency(), key);
      }
    }

    method Clear()
      modifies this
      ensures Valid() && Recency() == []
    {
      items, bytes, lru := map[], 0, [];
    }

    method Stats() returns (entries: nat, total: int)
      requires Valid()
      ensures entries == |Recency()| && total == Total(size, Recency())
    {
      MapSize(items, lru);
      entries, total := |items|, bytes;
    }
  }

  lemma {:induction false} MapSize(items: map<string, Element>, lru: seq<Element>)
    requires Linked(items, lru)
    ensures |items| == |lru|
    decreases |lru|
  {
    if lru == [] {
      assert items == map[];
    } else {
      LastUnlinked(items, lru);
      var last := lru[|lru| - 1];
      assert last in lru;
      MapSize(items - {last.entry.key}, lru[..|lru| - 1]);
      assert items.Keys == (items - {last.entry.key}).Keys + {last.entry.key};
    }
  }
}
