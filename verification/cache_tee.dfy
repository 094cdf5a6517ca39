/** A network body passed through, and kept for the cache if it ends well and is not too large. */
module CacheTee {
  import opened Basics
  import opened CacheFreshness
  import opened CacheStore

  datatype End = More | Eof | Failed

  /** One read: the bytes it returned, and how it ended. */
  datatype Read = Read(bytes: Body, end: End)

  datatype Tee = Tee(buf: Body, done: bool, stored: Option<Body>)

  const NEW := Tee([], false, None)

  function Step(max: nat, t: Tee, r: Read): Tee {
    var u := if t.done || r.bytes == [] then t
             else if |t.buf| + |r.bytes| > max then t.(done := true, buf := [])
             else t.(buf := t.buf + r.bytes);
    if r.end == Eof && !u.done then u.(done := true, stored := Some(u.buf))
    else if r.end == Failed then u.(done := true)
    else u
  }

  function Run(max: nat, rs: seq<Read>): Tee {
    if rs == [] then NEW else Step(max, Run(max, rs[..|rs| - 1]), rs[|rs| - 1])
  }

  /** The bytes of the reads. */
  function Bytes(rs: seq<Read>): Body {
    if rs == [] then [] else Bytes(rs[..|rs| - 1]) + rs[|rs| - 1].bytes
  }

  ghost predicate AllMore(rs: seq<Read>) {
    forall i :: 0 <= i < |rs| ==> rs[i].end == More
  }

  /** The body read to its end: the reads up to the first that does not say more to come. */
  ghost predicate EndsAt(rs: seq<Read>, n: nat) {
    n < |rs| && rs[n].end != More && AllMore(rs[..n])
  }

  lemma {:induction false} WhileMore(max: nat, rs: seq<Read>)
    requires AllMore(rs)
    ensures var t := Run(max, rs);
            && t.stored == None
            && (if |Bytes(rs)| <= max then !t.done && t.buf == Bytes(rs) else t.done)
    decreases |rs|
  {
    if rs != [] {
      WhileMore(max, rs[..|rs| - 1]);
    }
  }

  lemma {:induction false} DoneStays(max: nat, rs: seq<Read>, n: nat)
    requires n <= |rs| && Run(max, rs[..n]).done
    ensures Run(max, rs).done && Run(max, rs).stored == Run(max, rs[..n]).stored
    decreases |rs|
  {
    if n == |rs| {
      assert rs[..n] == rs;
    } else {
      assert rs[..|rs| - 1][..n] == rs[..n];
      DoneStays(max, rs[..|rs| - 1], n);
    }
  }

  /** A body is stored exactly when its first end is a proper one and it is within the limit; what is
      stored is then all of it, whatever is read after. */
  lemma StoredExactly(max: nat, rs: seq<Read>, n: nat)
    requires EndsAt(rs, n)
    ensures var whole := Bytes(rs[..n + 1]);
            Run(max, rs).stored == if rs[n].end == Eof && |whole| <= max then Some(whole) else None
  {
    WhileMore(max, rs[..n]);
    var p := rs[..n + 1];
    assert p[..n] == rs[..n] && p[n] == rs[n];
    assert Run(max, p) == Step(max, Run(max, rs[..n]), rs[n]);
    assert Bytes(p) == Bytes(rs[..n]) + rs[n].bytes;
    if rs[n].bytes == [] {
      assert Bytes(p) == Bytes(rs[..n]);
    }
    DoneStays(max, rs, n + 1);
  }

  /** And nothing before that. */
  lemma NothingStoredYet(max: nat, rs: seq<Read>)
    requires AllMore(rs)
    ensures Run(max, rs).stored == None
  {
    WhileMore(max, rs);
  }

  class TeeBody {
    const entryMax: nat
    var buf: Body
    var done: bool
    var stored: Option<Body>

    function Value(): Tee
      reads this
    {
      Tee(buf, done, stored)
    }

    constructor (entryMax: nat)
      ensures Value() == NEW && this.entryMax == entryMax
    {
      this.entryMax := entryMax;
      buf, done, stored := [], false, None;
    }

    /** What the reader underneath returned is passed on; the store is told at the end. */
    method Read(r: Read) returns (n: nat)
      modifies this
      ensures n == |r.bytes| && Value() == Step(entryMax, old(Value()), r)
    {
      n := |r.bytes|;
      if !done && n > 0 {
        if |buf| + n > entryMax {
          done, buf := true, [];
        } else {
          buf := buf + r.bytes;
        }
      }
      if r.end == Eof && !done {
        done := true;
        stored := Some(buf);
      } else if r.end != More && r.end != Eof {
        done := true;
      }
    }
  }
}
