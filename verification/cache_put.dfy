/** The memory store does what the runs ask of a store. */
module CachePut {
  import opened Basics
  import opened CacheFreshness
  import opened CacheStore

  /** Looking up after a put: the new entry under its key, or what was there before. */
  lemma {:induction false} FindAfterPut(l: seq<Entry>, e: Entry, key: string)
    requires OneKey(l)
    ensures Find([e] + Without(l, e.key), key) == if key == e.key then Some(e) else Find(l, key)
  {
    assert ([e] + Without(l, e.key))[1..] == Without(l, e.key);
    if key != e.key {
      FindWithout(l, e.key, key);
    }
  }

  lemma {:induction false} FindWithout(l: seq<Entry>, gone: string, key: string)
    requires key != gone
    ensures Find(Without(l, gone), key) == Find(l, key)
  {
    if l != [] && l[0].key != gone {
      FindWithout(l[1..], gone, key);
      assert Without(l, gone)[1..] == Without(l[1..], gone);
    }
  }

  lemma PrefixTail<T>(l: seq<T>, n: nat)
    requires 0 < n <= |l|
    ensures l[..n] != [] && l[..n][0] == l[0] && l[..n][1..] == l[1..][..n - 1]
  {}

  /** Eviction loses entries and changes none. */
  lemma {:induction false} FindInPrefix(l: seq<Entry>, n: nat, key: string)
    requires n <= |l|
    ensures Find(l[..n], key) == Find(l, key) || Find(l[..n], key) == None
  {
    if n > 0 && l[0].key != key {
      FindInPrefix(l[1..], n - 1, key);
      PrefixTail(l, n);
    }
  }

  /** What the memory store holds after a put is the run's store after the put and some loss. */
  lemma PutRefines(size: Entry -> nat, max: int, l: seq<Entry>, e: Entry, n: nat, key: string)
    requires OneKey(l) && Fitting(size, max, [e] + Without(l, e.key), n)
    ensures var kept := Find(([e] + Without(l, e.key))[..n], key);
            kept == None || kept == if key == e.key then Some(e) else Find(l, key)
    ensures Find(([e] + Without(l, e.key))[..n], e.key) == Some(e)
  {
    FindInPrefix([e] + Without(l, e.key), n, key);
    FindAfterPut(l, e, key);
  }
}
