/** What the inner hello offers: its cipher suites and its versions. */
module EchOffer {
  import opened Basics
  import opened EchWire
  import opened EchExpand
  import opened EchInner

  /** The sixteen reserved values of section 2 of RFC 8701: 0x0a0a, 0x1a1a, up to 0xfafa. */
  lemma GreaseMeans(v: Word16)
    ensures Grease(v) <==> exists k :: 0 <= k < 16 && v == 0x0a0a + 0x1010 * k
  {
    if Grease(v) {
      var k := v % 256 / 16;
      assert v == 0x0a0a + 0x1010 * k;
    }
  }

  /** A suite of TLS 1.3. */
  predicate Of13(suite: Word16) {
    0x1300 <= suite <= 0x13ff
  }

  ghost predicate Kept(style: Style, suite: Word16) {
    style.Nss? || Of13(suite) || exists k :: 0 <= k < 16 && suite == 0x0a0a + 0x1010 * k
  }

  lemma KeptFirst(style: Style, suites: seq<Word16>)
    requires suites != []
    ensures KeptSuites(style, suites)
            == if style.Nss? then suites
               else (if Kept(style, suites[0]) then [suites[0]] else []) + KeptSuites(style, suites[1..])
  {
    GreaseMeans(suites[0]);
  }

  ghost predicate Picks(style: Style, suites: seq<Word16>, at: seq<nat>) {
    && Ascending(at, |suites|)
    && forall i: nat :: i in at <==> i < |suites| && Kept(style, suites[i])
  }

  ghost predicate PickedBy(suites: seq<Word16>, at: seq<nat>, kept: seq<Word16>) {
    |kept| == |at| && forall i :: 0 <= i < |at| ==> at[i] < |suites| && kept[i] == suites[at[i]]
  }

  /** Places in a list, moved up by one. */
  function Shifted(at: seq<nat>): (r: seq<nat>)
    ensures |r| == |at| && forall i :: 0 <= i < |r| ==> r[i] == at[i] + 1
  {
    seq(|at|, i requires 0 <= i < |at| => at[i] + 1)
  }

  lemma ShiftedHas(at: seq<nat>, i: nat)
    ensures i in Shifted(at) <==> i > 0 && i - 1 in at
  {
    if i > 0 && i - 1 in at {
      var j :| 0 <= j < |at| && at[j] == i - 1;
      assert Shifted(at)[j] == i;
    }
  }

  lemma PicksMore(style: Style, suites: seq<Word16>, rest: seq<nat>, at: seq<nat>)
    requires suites != [] && Picks(style, suites[1..], rest)
    requires at == (if Kept(style, suites[0]) then [0] else []) + Shifted(rest)
    ensures Picks(style, suites, at)
  {
    forall i: nat ensures i in at <==> i < |suites| && Kept(style, suites[i]) {
      ShiftedHas(rest, i);
      if i > 0 {
        assert i < |suites| ==> suites[1..][i - 1] == suites[i];
      }
    }
    forall i | 0 <= i < |rest| ensures rest[i] < |suites| - 1 {
      assert rest[i] in rest;
    }
  }

  lemma PickedMore(suites: seq<Word16>, first: bool, rest: seq<nat>, kept: seq<Word16>)
    requires suites != [] && PickedBy(suites[1..], rest, kept)
    ensures PickedBy(suites, (if first then [0] else []) + Shifted(rest), (if first then [suites[0]] else []) + kept)
  {}

  function UpTo(n: nat): (r: seq<nat>)
    ensures |r| == n && forall i :: 0 <= i < n ==> r[i] == i
  {
    seq(n, i requires 0 <= i < n => i)
  }

  lemma PicksAll(suites: seq<Word16>)
    ensures Picks(Nss, suites, UpTo(|suites|)) && PickedBy(suites, UpTo(|suites|), suites)
  {
    forall i: nat | i < |suites| ensures i in UpTo(|suites|) {
      assert UpTo(|suites|)[i] == i;
    }
  }

  /** The suites are those at ascending places of the outer list: for NSS all of them, for BoringSSL exactly
      the reserved ones and those of TLS 1.3. */
  lemma {:induction false} SuitesInOrder(style: Style, suites: seq<Word16>) returns (at: seq<nat>)
    ensures Picks(style, suites, at) && PickedBy(suites, at, KeptSuites(style, suites))
    decreases |suites|
  {
    if style.Nss? {
      at := UpTo(|suites|);
      PicksAll(suites);
    } else if suites == [] {
      at := [];
    } else {
      var rest := SuitesInOrder(style, suites[1..]);
      at := (if Kept(style, suites[0]) then [0] else []) + Shifted(rest);
      KeptFirst(style, suites);
      PicksMore(style, suites, rest, at);
      PickedMore(suites, Kept(style, suites[0]), rest, KeptSuites(style, suites[1..]));
    }
  }

  /** So on the wire. */
  lemma SuitesOnWire(style: Style, suites: seq<Word16>) returns (at: seq<nat>)
    ensures Picks(style, suites, at) && |Words(KeptSuites(style, suites))| == 2 * |at|
    ensures forall i :: 0 <= i < |at| ==> Read16(Words(KeptSuites(style, suites)), 2 * i) == suites[at[i]]
  {
    at := SuitesInOrder(style, suites);
    TypesListSize(KeptSuites(style, suites));
    forall i | 0 <= i < |at| ensures Read16(Words(KeptSuites(style, suites)), 2 * i) == suites[at[i]] {
      TypesAt(KeptSuites(style, suites), i);
    }
  }

  // ---- Versions ----

  /** The data of a supported_versions extension that lists these. */
  predicate ListsVersions(data: Bytes, list: seq<Word16>) {
    && |data| == 1 + 2 * |list| && data[0] == 2 * |list|
    && forall i :: 0 <= i < |list| ==> Read16(data, 1 + 2 * i) == list[i]
  }

  lemma WordsList(list: seq<Word16>)
    requires |list| < 128
    ensures |Words(list)| == 2 * |list| && ListsVersions(Prefixed8(Words(list)), list)
  {
    TypesListSize(list);
    var data, words := Prefixed8(Words(list)), Words(list);
    forall i | 0 <= i < |list| ensures Read16(data, 1 + 2 * i) == list[i] {
      TypesAt(list, i);
      assert data[1 + 2 * i] == words[2 * i] && data[1 + 2 * i + 1] == words[2 * i + 1];
    }
  }

  /** The first reserved value of a list, if it has one. */
  ghost predicate IsFirstGrease(versions: seq<Word16>, first: seq<Word16>) {
    if forall i :: 0 <= i < |versions| ==> !Grease(versions[i]) then first == []
    else exists i :: 0 <= i < |versions| && first == [versions[i]] && Grease(versions[i])
                     && forall j :: 0 <= j < i ==> !Grease(versions[j])
  }

  lemma {:induction false} FirstGreaseIs(versions: seq<Word16>)
    ensures IsFirstGrease(versions, FirstGrease(versions))
  {
    if versions != [] && !Grease(versions[0]) {
      var rest := versions[1..];
      FirstGreaseIs(rest);
      assert forall i :: 0 <= i < |rest| ==> rest[i] == versions[i + 1];
      if j :| 0 <= j < |rest| && Grease(rest[j]) {
        var i :| 0 <= i < |rest| && FirstGrease(rest) == [rest[i]] && Grease(rest[i])
                 && forall k :: 0 <= k < i ==> !Grease(rest[k]);
        assert FirstGrease(versions) == [versions[i + 1]];
      }
    }
  }

  /** An extension of the inner hello's own lists TLS 1.3 and nothing else, but for BoringSSL's first reserved
      value before it. */
  lemma OwnVersions(style: Style, versions: seq<Word16>) returns (first: seq<Word16>)
    ensures ListsVersions(VersionsExt(style, versions).data, first + [TLS13])
    ensures if style.Boring? then IsFirstGrease(versions, first) else first == []
  {
    first := if style.Boring? then FirstGrease(versions) else [];
    FirstGreaseIs(versions);
    FirstGreaseSize(versions);
    WordsList(first + [TLS13]);
  }
}
