/** Names of imported profiles: browser-version-os, as short a version as tells them apart. */
module ProfileNames {
  import opened Basics

  /** What stands between the dots of a version. */
  type Component = s: string | '.' !in s

  /** A file: its base name, the components of its version, and its system. */
  datatype File = File(base: string, version: seq<Component>, os: string)

  /** What stands before the first underscore. */
  function Before(s: string): string {
    if s == "" || s[0] == '_' then "" else [s[0]] + Before(s[1..])
  }

  function Browser(f: File): string {
    Before(f.base)
  }

  /** Version components and a dot between each two. */
  function Dotted(parts: seq<Component>): string {
    if parts == [] then "" else if |parts| == 1 then parts[0] else parts[0] + "." + Dotted(parts[1..])
  }

  function Cut(parts: seq<Component>, depth: nat): seq<Component> {
    if |parts| > depth then parts[..depth] else parts
  }

  function Version(f: File, depth: nat): string {
    Dotted(Cut(f.version, depth))
  }

  function Joined(browser: string, version: string, os: string): string {
    browser + "-" + version + "-" + os
  }

  /** profileName. */
  function Name(f: File, depth: nat): string {
    if Version(f, depth) == "" then f.base else Joined(Browser(f), Version(f, depth), f.os)
  }

  // ---- What is asked of the files ----

  predicate Without(s: string, c: char) {
    c !in s
  }

  /** No dot comes before a hyphen. */
  predicate Undotted(s: string) {
    forall i, j :: 0 <= i < j < |s| && s[i] == '.' ==> s[j] != '-'
  }

  /** No hyphen in the browser's name; none in the system's behind a dot. */
  predicate Plain(f: File) {
    Without(Browser(f), '-') && Undotted(f.os)
  }

  /** Files of one directory. */
  predicate DifferentBases(files: seq<File>) {
    forall i, j :: 0 <= i < j < |files| ==> files[i].base != files[j].base
  }

  // ---- Names tell their parts ----

  function Dots(s: string): nat {
    if s == "" then 0 else (if s[0] == '.' then 1 else 0) + Dots(s[1..])
  }

  lemma {:induction false} DotsJoin(a: string, b: string)
    ensures Dots(a + b) == Dots(a) + Dots(b)
  {
    if a == "" {
      assert a + b == b;
    } else {
      assert (a + b)[1..] == a[1..] + b;
      DotsJoin(a[1..], b);
    }
  }

  lemma {:induction false} NoDots(s: string)
    requires Without(s, '.')
    ensures Dots(s) == 0
  {
    if s != "" {
      NoDots(s[1..]);
    }
  }

  /** A version has one component more than dots. */
  lemma {:induction false} DotsCount(parts: seq<Component>)
    requires parts != []
    ensures Dots(Dotted(parts)) == |parts| - 1
  {
    NoDots(parts[0]);
    if |parts| > 1 {
      DotsCount(parts[1..]);
      DotsJoin(parts[0] + ".", Dotted(parts[1..]));
      DotsJoin(parts[0], ".");
    }
  }

  /** The longer of two fronts goes on where the other's tail starts. */
  lemma LongerParts(v: string, v': string, o: string, o': string) returns (rest: string)
    requires v + "-" + o == v' + "-" + o' && |v| < |v'|
    ensures v' == v + "-" + rest && |rest| < |o| && o[..|rest|] == rest && o[|rest|] == '-'
  {
    var u := v + "-" + o;
    rest := v'[|v| + 1..];
    assert u[..|v'|] == v' && u[|v|] == '-' && u[|v'|] == '-';
    assert o == u[|v| + 1..];
  }

  /** It has no more dots, when no dot of the tail comes before a hyphen. */
  lemma LongerFront(v: string, v': string, o: string, o': string)
    requires v + "-" + o == v' + "-" + o' && Undotted(o) && |v| < |v'|
    ensures Dots(v') == Dots(v)
  {
    var rest := LongerParts(v, v', o, o');
    forall i | 0 <= i < |rest|
      ensures rest[i] != '.'
    {
      assert rest[i] == o[..|rest|][i] == o[i];
    }
    DotsJoin(v + "-", rest);
    DotsJoin(v, "-");
    NoDots(rest);
  }

  /** Names of three parts tell the browser, and how many dots the version has. */
  lemma JoinedTells(b: string, v: string, o: string, b': string, v': string, o': string)
    requires Without(b, '-') && Undotted(o) && Without(b', '-') && Undotted(o')
    requires Joined(b, v, o) == Joined(b', v', o')
    ensures b == b' && Dots(v) == Dots(v')
  {
    assert Joined(b, v, o) == b + ['-'] + (v + "-" + o);
    assert Joined(b', v', o') == b' + ['-'] + (v' + "-" + o');
    SplitAt(b, b', v + "-" + o, v' + "-" + o', '-');
    if |v| < |v'| {
      LongerFront(v, v', o, o');
    } else if |v'| < |v| {
      LongerFront(v', v, o', o);
    } else {
      assert (v + "-" + o)[..|v|] == v && (v' + "-" + o')[..|v'|] == v';
    }
  }

  lemma {:induction false} BeforeKeeps(a: string, rest: string)
    requires '_' !in a
    ensures Before(a + rest) == a + Before(rest)
  {
    if a == "" {
      assert a + rest == rest;
    } else {
      assert (a + rest)[1..] == a[1..] + rest;
      BeforeKeeps(a[1..], rest);
    }
  }

  lemma {:induction false} BeforeWithout(s: string)
    ensures '_' !in Before(s)
  {
    if s != "" && s[0] != '_' {
      BeforeWithout(s[1..]);
    }
  }

  lemma HyphenInFront(browser: string, rest: string)
    requires '_' !in browser
    ensures '-' in Before(browser + "-" + rest)
  {
    var start := browser + "-";
    BeforeKeeps(start, rest);
    assert (start + Before(rest))[|browser|] == '-';
  }

  /** A base name is no other file's name of three parts: its browser would hold a hyphen. */
  lemma BaseIsNoTriple(f: File, g: File, version: string)
    requires Plain(f)
    ensures f.base != Joined(Browser(g), version, g.os)
  {
    BeforeWithout(g.base);
    HyphenInFront(Browser(g), version + "-" + g.os);
    assert Joined(Browser(g), version, g.os) == Browser(g) + "-" + (version + "-" + g.os);
  }

  /** A deep look that sees no more components than a shallow one of another file sees what a look as
      shallow sees. */
  lemma ShallowAgrees(f: File, g: File, shallow: nat, deep: nat)
    requires shallow <= deep && Version(f, shallow) != "" && Version(g, deep) != ""
    requires Dots(Version(f, shallow)) == Dots(Version(g, deep))
    ensures Version(g, shallow) == Version(g, deep)
  {
    DotsCount(Cut(f.version, shallow));
    DotsCount(Cut(g.version, deep));
    assert Cut(g.version, shallow) == Cut(g.version, deep);
  }

  /** Names given at different depths differ, though the shallow one is never looked at again: when it
      was given, the other file had another name at that depth. */
  lemma DepthsDiffer(f: File, g: File, shallow: nat, deep: nat)
    requires Plain(f) && Plain(g) && f.base != g.base
    requires 0 < shallow <= deep && Name(f, shallow) != Name(g, shallow)
    ensures Name(f, shallow) != Name(g, deep)
  {
    if Name(f, shallow) == Name(g, deep) {
      BaseIsNoTriple(f, g, Version(g, deep));
      BaseIsNoTriple(g, f, Version(f, shallow));
      if Version(f, shallow) != "" && Version(g, deep) != "" {
        JoinedTells(Browser(f), Version(f, shallow), f.os, Browser(g), Version(g, deep), g.os);
        ShallowAgrees(f, g, shallow, deep);
      }
    }
  }

  // ---- Who is left ----

  /** After so many passes the file has no name yet: another as far had the same at each depth. */
  ghost predicate LeftAt(files: seq<File>, i: nat, depth: nat)
    requires i < |files|
    decreases depth, 1
  {
    depth == 0 || (LeftAt(files, i, depth - 1) && exists j: nat :: j < |files| && Rival(files, i, j, depth))
  }

  /** Another file still left that has the same name at this depth. */
  ghost predicate Rival(files: seq<File>, i: nat, j: nat, depth: nat)
    requires i < |files| && j < |files| && depth > 0
    decreases depth, 0
  {
    j != i && LeftAt(files, j, depth - 1) && Name(files[j], depth) == Name(files[i], depth)
  }

  const DEEPEST: nat := 4

  /** The first depth from here on at which it is not left, past the last one if there is none. */
  function FirstOut(left: nat -> bool, depth: nat): (d: nat)
    requires depth <= DEEPEST + 1
    ensures depth <= d <= DEEPEST + 1 && (d <= DEEPEST ==> !left(d)) && forall e: nat :: depth <= e < d ==> left(e)
    decreases DEEPEST + 1 - depth
  {
    if depth > DEEPEST || !left(depth) then depth else FirstOut(left, depth + 1)
  }

  ghost function LeftOf(files: seq<File>, i: nat): nat -> bool
    requires i < |files|
  {
    (d: nat) => LeftAt(files, i, d)
  }

  /** The depth of the pass that names the file. */
  ghost function DepthOf(files: seq<File>, i: nat): nat
    requires i < |files|
  {
    FirstOut(LeftOf(files, i), 1)
  }

  /** Named by the pass of that depth, or by none. */
  ghost predicate NamedAt(files: seq<File>, i: nat, d: nat)
    requires i < |files|
  {
    0 < d <= DEEPEST + 1 && LeftAt(files, i, d - 1) && (d <= DEEPEST ==> !LeftAt(files, i, d))
  }

  lemma FirstOutMeans(left: nat -> bool)
    requires left(0)
    ensures var d := FirstOut(left, 1); left(d - 1) && (d <= DEEPEST ==> !left(d))
  {}

  lemma DepthNames(files: seq<File>, i: nat)
    requires i < |files|
    ensures NamedAt(files, i, DepthOf(files, i))
  {
    FirstOutMeans(LeftOf(files, i));
  }

  /** The name at a depth, or past the last one the base name. */
  function NameOr(f: File, d: nat): string {
    if d <= DEEPEST then Name(f, d) else f.base
  }

  /** The name a file is to have. */
  ghost function Outcome(files: seq<File>, i: nat): string
    requires i < |files|
  {
    NameOr(files[i], DepthOf(files, i))
  }

  lemma {:induction false} LeftBefore(files: seq<File>, i: nat, early: nat, late: nat)
    requires i < |files| && early <= late && LeftAt(files, i, late)
    ensures LeftAt(files, i, early)
    decreases late
  {
    if early < late {
      LeftBefore(files, i, early, late - 1);
    }
  }

  lemma NamedApart(files: seq<File>, i: nat, j: nat, a: nat, b: nat)
    requires i < |files| && j < |files| && i != j && 0 < a <= b
    requires LeftAt(files, i, a - 1) && !LeftAt(files, i, a) && LeftAt(files, j, b - 1)
    ensures Name(files[j], a) != Name(files[i], a)
  {
    LeftBefore(files, j, a - 1, b - 1);
    assert !Rival(files, i, j, a);
  }

  lemma NamesDiffer(f: File, g: File, a: nat, b: nat)
    requires Plain(f) && Plain(g) && f.base != g.base && 0 < a <= b && Name(g, a) != Name(f, a)
    ensures Name(f, a) != NameOr(g, b)
  {
    if b <= DEEPEST {
      DepthsDiffer(f, g, a, b);
    } else {
      BaseIsNoTriple(g, f, Version(f, a));
    }
  }

  lemma NamesApart(files: seq<File>, i: nat, j: nat, a: nat, b: nat)
    requires i < |files| && j < |files| && Plain(files[i]) && Plain(files[j]) && files[i].base != files[j].base
    requires 0 < a <= b && (a <= DEEPEST ==> Name(files[j], a) != Name(files[i], a))
    ensures NameOr(files[i], a) != NameOr(files[j], b)
  {
    if a <= DEEPEST {
      NamesDiffer(files[i], files[j], a, b);
    }
  }

  /** No two files get one name, if browsers have no hyphen and systems none behind a dot. */
  lemma OutcomesDiffer(files: seq<File>, i: nat, j: nat)
    requires DifferentBases(files) && (forall k :: 0 <= k < |files| ==> Plain(files[k]))
    requires i < |files| && j < |files| && i != j
    ensures Outcome(files, i) != Outcome(files, j)
  {
    var a, b := DepthOf(files, i), DepthOf(files, j);
    DepthNames(files, i);
    DepthNames(files, j);
    if a <= b {
      if a <= DEEPEST {
        NamedApart(files, i, j, a, b);
      }
      NamesApart(files, i, j, a, b);
    } else {
      if b <= DEEPEST {
        NamedApart(files, j, i, b, a);
      }
      NamesApart(files, j, i, b, a);
    }
  }

  /** Another file has the same name at that depth. */
  ghost predicate Shared(files: seq<File>, i: nat, depth: nat)
    requires i < |files|
  {
    exists j: nat :: j < |files| && j != i && Name(files[j], depth) == Name(files[i], depth)
  }

  lemma LeftIsShared(files: seq<File>, i: nat, depth: nat)
    requires i < |files| && 0 < depth && LeftAt(files, i, depth)
    ensures Shared(files, i, depth)
  {
    var j: nat :| j < |files| && Rival(files, i, j, depth);
  }

  ghost predicate ShortestAt(files: seq<File>, i: nat, d: nat)
    requires i < |files|
  {
    0 < d <= DEEPEST + 1 && forall e: nat :: 0 < e < d ==> Shared(files, i, e)
  }

  /** The name is as short as can be: each shorter one is another file's too, and the base name is taken
      only where every one is. */
  lemma OutcomeShortest(files: seq<File>, i: nat)
    requires i < |files|
    ensures exists d: nat :: ShortestAt(files, i, d) && Outcome(files, i) == NameOr(files[i], d)
  {
    var d := DepthOf(files, i);
    DepthNames(files, i);
    forall e: nat | 0 < e < d
      ensures Shared(files, i, e)
    {
      LeftBefore(files, i, e, d - 1);
      LeftIsShared(files, i, e);
    }
    assert ShortestAt(files, i, d);
  }

  // ---- The passes ----

  /** Files by their place in the sorted list. */
  type Names = map<nat, string>

  ghost predicate Places(files: seq<File>, paths: seq<nat>) {
    && (forall k :: 0 <= k < |paths| ==> paths[k] < |files|)
    && forall k, l :: 0 <= k < l < |paths| ==> paths[k] != paths[l]
  }

  /** The names the paths have at a depth. */
  ghost function At(files: seq<File>, paths: seq<nat>, depth: nat): seq<string>
    requires Places(files, paths)
  {
    seq(|paths|, k requires 0 <= k < |paths| => Name(files[paths[k]], depth))
  }

  /** How often each name occurs, as the pass counts it. */
  function Tally(l: seq<string>): map<string, nat> {
    if l == [] then map[] else CountedIn(Tally(l[..|l| - 1]), l[|l| - 1])
  }

  function CountedIn(counts: map<string, nat>, n: string): map<string, nat> {
    counts[n := (if n in counts then counts[n] else 0) + 1]
  }

  lemma {:induction false} TallyCounts(l: seq<string>, n: string)
    ensures (if n in Tally(l) then Tally(l)[n] else 0) == multiset(l)[n]
    decreases |l|
  {
    if l != [] {
      TallyCounts(l[..|l| - 1], n);
      assert l == l[..|l| - 1] + [l[|l| - 1]];
    }
  }

  lemma TallyNext(l: seq<string>, k: nat)
    requires k < |l|
    ensures Tally(l[..k + 1]) == CountedIn(Tally(l[..k]), l[k])
  {
    assert l[..k + 1][..k] == l[..k];
  }

  /** Two places of one name count twice. */
  lemma CountTwo(l: seq<string>, i: nat, j: nat)
    requires i < j < |l| && l[i] == l[j]
    ensures multiset(l)[l[i]] >= 2
  {
    assert l == l[..j] + [l[j]] + l[j + 1..];
    assert l[i] in l[..j];
    assert multiset(l) == multiset(l[..j]) + multiset([l[j]]) + multiset(l[j + 1..]);
  }

  method Count(files: seq<File>, paths: seq<nat>, depth: nat) returns (counts: map<string, nat>)
    requires Places(files, paths)
    ensures counts == Tally(At(files, paths, depth))
  {
    counts := map[];
    ghost var all := At(files, paths, depth);
    var k := 0;
    while k < |paths|
      invariant k <= |paths| && counts == Tally(all[..k])
    {
      TallyNext(all, k);
      counts := CountedIn(counts, Name(files[paths[k]], depth));
      k := k + 1;
    }
    assert all[..k] == all;
  }

  lemma CountOf(files: seq<File>, paths: seq<nat>, depth: nat, k: nat)
    requires Places(files, paths) && k < |paths|
    ensures var n, t := Name(files[paths[k]], depth), Tally(At(files, paths, depth));
            n in t && (t[n] == 1 <==> Unique(files, paths, depth, k))
  {
    var all := At(files, paths, depth);
    TallyCounts(all, all[k]);
    assert all[k] in multiset(all);
  }

  ghost predicate Unique(files: seq<File>, paths: seq<nat>, depth: nat, k: nat)
    requires Places(files, paths) && k < |paths|
  {
    multiset(At(files, paths, depth))[Name(files[paths[k]], depth)] == 1
  }

  lemma CountOne(l: seq<string>, k: nat)
    requires k < |l| && forall i :: 0 <= i < |l| && i != k ==> l[i] != l[k]
    ensures multiset(l)[l[k]] == 1
  {
    assert l == l[..k] + [l[k]] + l[k + 1..];
    assert l[k] !in l[..k] && l[k] !in l[k + 1..];
    assert multiset(l) == multiset(l[..k]) + multiset([l[k]]) + multiset(l[k + 1..]);
  }

  /** The paths are the files still left before a pass. */
  ghost predicate LeftPaths(files: seq<File>, paths: seq<nat>, depth: nat) {
    Places(files, paths) && forall i: nat :: i < |files| ==> (i in paths <==> LeftAt(files, i, depth))
  }

  lemma HasRival(files: seq<File>, i: nat, j: nat, depth: nat)
    requires depth > 0 && i < |files| && j < |files| && LeftAt(files, i, depth - 1) && Rival(files, i, j, depth)
    ensures LeftAt(files, i, depth)
  {}

  lemma WithoutRival(files: seq<File>, i: nat, depth: nat)
    requires depth > 0 && i < |files| && forall j: nat :: j < |files| ==> !Rival(files, i, j, depth)
    ensures !LeftAt(files, i, depth)
  {}

  lemma SharedCount(files: seq<File>, paths: seq<nat>, depth: nat, k: nat, l: nat)
    requires depth > 0 && LeftPaths(files, paths, depth - 1) && k < |paths| && l < |paths| && l != k
    requires Name(files[paths[l]], depth) == Name(files[paths[k]], depth)
    ensures !Unique(files, paths, depth, k) && LeftAt(files, paths[k], depth)
  {
    var all := At(files, paths, depth);
    CountTwo(all, if k < l then k else l, if k < l then l else k);
    HasRival(files, paths[k], paths[l], depth);
  }

  lemma AloneCount(files: seq<File>, paths: seq<nat>, depth: nat, k: nat)
    requires depth > 0 && LeftPaths(files, paths, depth - 1) && k < |paths|
    requires forall l :: 0 <= l < |paths| && l != k ==> Name(files[paths[l]], depth) != Name(files[paths[k]], depth)
    ensures Unique(files, paths, depth, k) && !LeftAt(files, paths[k], depth)
  {
    CountOne(At(files, paths, depth), k);
    forall j: nat | j < |files|
      ensures !Rival(files, paths[k], j, depth)
    {
      NoRival(files, paths, depth, k, j);
    }
    WithoutRival(files, paths[k], depth);
  }

  /** Counted once means without a rival. */
  lemma UniqueMeans(files: seq<File>, paths: seq<nat>, depth: nat, k: nat)
    requires depth > 0 && LeftPaths(files, paths, depth - 1) && k < |paths|
    ensures Unique(files, paths, depth, k) <==> !LeftAt(files, paths[k], depth)
  {
    if l :| 0 <= l < |paths| && l != k && Name(files[paths[l]], depth) == Name(files[paths[k]], depth) {
      SharedCount(files, paths, depth, k, l);
    } else {
      AloneCount(files, paths, depth, k);
    }
  }

  lemma NoRival(files: seq<File>, paths: seq<nat>, depth: nat, k: nat, j: nat)
    requires depth > 0 && LeftPaths(files, paths, depth - 1) && k < |paths| && j < |files|
    requires forall l :: 0 <= l < |paths| && l != k ==> Name(files[paths[l]], depth) != Name(files[paths[k]], depth)
    ensures !Rival(files, paths[k], j, depth)
  {
    if j in paths && j != paths[k] {
      var l :| 0 <= l < |paths| && paths[l] == j;
    }
  }

  // ---- A pass ----

  lemma {:induction false} NamedOnce(files: seq<File>, i: nat, a: nat, b: nat)
    requires i < |files| && NamedAt(files, i, a) && NamedAt(files, i, b) && a <= b
    ensures a == b
  {
    if a < b {
      LeftBefore(files, i, a, b - 1);
    }
  }

  lemma OutcomeAt(files: seq<File>, i: nat, d: nat)
    requires i < |files| && NamedAt(files, i, d)
    ensures Outcome(files, i) == NameOr(files[i], d)
  {
    DepthNames(files, i);
    var e := DepthOf(files, i);
    NamedOnce(files, i, if d <= e then d else e, if d <= e then e else d);
  }

  /** The files named by the passes to that depth. */
  ghost function Out(files: seq<File>, depth: nat): set<nat> {
    set i: nat | i < |files| && !LeftAt(files, i, depth)
  }

  /** Those of the first k paths that the pass names. */
  ghost function OutOf(files: seq<File>, paths: seq<nat>, depth: nat, k: nat): set<nat>
    requires Places(files, paths) && k <= |paths|
  {
    if k == 0 then {}
    else OutOf(files, paths, depth, k - 1) + if LeftAt(files, paths[k - 1], depth) then {} else {paths[k - 1]}
  }

  /** These of n files have names, each its outcome. */
  ghost predicate Given(n: nat, out: set<nat>, names: Names, outcome: nat -> string) {
    names.Keys == out && forall i: nat :: i in out ==> i < n && names[i] == outcome(i)
  }

  lemma GivenAdd(n: nat, out: set<nat>, names: Names, outcome: nat -> string, i: nat)
    requires Given(n, out, names, outcome) && i < n
    ensures Given(n, out + {i}, names[i := outcome(i)], outcome)
  {}

  ghost function OutcomeOf(files: seq<File>): nat -> string {
    (i: nat) => if i < |files| then Outcome(files, i) else ""
  }

  /** These files have names, each the one it is to have. */
  ghost predicate NamesTo(files: seq<File>, out: set<nat>, names: Names) {
    Given(|files|, out, names, OutcomeOf(files))
  }

  /** Those of the first k paths that are left. */
  ghost predicate LeftTo(files: seq<File>, paths: seq<nat>, depth: nat, k: nat, left: seq<nat>)
    requires k <= |paths|
  {
    Places(files, left) && forall i: nat :: i in left <==> i < |files| && i in paths[..k] && LeftAt(files, i, depth)
  }

  lemma OneMorePath(paths: seq<nat>, k: nat, i: nat)
    requires k < |paths|
    ensures i in paths[..k + 1] <==> i in paths[..k] || i == paths[k]
  {
    assert paths[..k + 1] == paths[..k] + [paths[k]];
  }

  /** One file more named. */
  lemma NamesNext(files: seq<File>, i: nat, depth: nat, out: set<nat>, names: Names)
    requires i < |files| && 0 < depth <= DEEPEST && LeftAt(files, i, depth - 1) && !LeftAt(files, i, depth)
    requires NamesTo(files, out, names)
    ensures NamesTo(files, out + {i}, names[i := Name(files[i], depth)])
  {
    OutcomeAt(files, i, depth);
    GivenAdd(|files|, out, names, OutcomeOf(files), i);
  }

  lemma OutOfNext(files: seq<File>, paths: seq<nat>, depth: nat, k: nat, before: set<nat>, out: set<nat>)
    requires Places(files, paths) && k < |paths| && out == before + OutOf(files, paths, depth, k)
    ensures before + OutOf(files, paths, depth, k + 1)
            == if LeftAt(files, paths[k], depth) then out else out + {paths[k]}
  {}

  lemma {:induction false} OutOfMeans(files: seq<File>, paths: seq<nat>, depth: nat, k: nat, i: nat)
    requires Places(files, paths) && k <= |paths|
    ensures i in OutOf(files, paths, depth, k) <==> i < |files| && i in paths[..k] && !LeftAt(files, i, depth)
  {
    if k > 0 {
      OutOfMeans(files, paths, depth, k - 1, i);
      OneMorePath(paths, k - 1, i);
    }
  }

  lemma LeftNext(files: seq<File>, paths: seq<nat>, depth: nat, k: nat, left: seq<nat>)
    requires Places(files, paths) && k < |paths| && LeftTo(files, paths, depth, k, left)
    ensures LeftAt(files, paths[k], depth) ==> LeftTo(files, paths, depth, k + 1, left + [paths[k]])
    ensures !LeftAt(files, paths[k], depth) ==> LeftTo(files, paths, depth, k + 1, left)
  {
    forall i: nat
      ensures i in paths[..k + 1] <==> i in paths[..k] || i == paths[k]
    {
      OneMorePath(paths, k, i);
    }
    assert paths[k] !in paths[..k];
  }

  /** Names that count once are given, the other paths left. */
  method Pass(files: seq<File>, paths: seq<nat>, depth: nat, names: Names) returns (names': Names, left: seq<nat>)
    requires 0 < depth <= DEEPEST && LeftPaths(files, paths, depth - 1) && NamesTo(files, Out(files, depth - 1), names)
    ensures LeftPaths(files, left, depth) && NamesTo(files, Out(files, depth), names')
  {
    var counts := Count(files, paths, depth);
    names', left := names, [];
    var k := 0;
    ghost var before := Out(files, depth - 1);
    ghost var out := before;
    assert before + {} == out;
    while k < |paths|
      invariant k <= |paths| && LeftTo(files, paths, depth, k, left)
      invariant out == before + OutOf(files, paths, depth, k) && NamesTo(files, out, names')
    {
      OutOfNext(files, paths, depth, k, before, out);
      LeftNext(files, paths, depth, k, left);
      CountOf(files, paths, depth, k);
      UniqueMeans(files, paths, depth, k);
      var n := Name(files[paths[k]], depth);
      assert paths[k] in paths;
      if counts[n] == 1 {
        NamesNext(files, paths[k], depth, out, names');
        names', out := names'[paths[k] := n], out + {paths[k]};
      } else {
        left := left + [paths[k]];
      }
      k := k + 1;
    }
    PassLeaves(files, paths, depth, left);
    PassNames(files, paths, depth);
  }

  lemma LeftLess(files: seq<File>, i: nat, depth: nat)
    requires depth > 0 && i < |files| && LeftAt(files, i, depth)
    ensures LeftAt(files, i, depth - 1)
  {}

  lemma PassLeaves(files: seq<File>, paths: seq<nat>, depth: nat, left: seq<nat>)
    requires depth > 0 && LeftPaths(files, paths, depth - 1) && LeftTo(files, paths, depth, |paths|, left)
    ensures LeftPaths(files, left, depth)
  {
    assert paths[..|paths|] == paths;
    forall i: nat | i < |files|
      ensures i in left <==> LeftAt(files, i, depth)
    {
      if LeftAt(files, i, depth) {
        LeftLess(files, i, depth);
      }
    }
  }

  lemma PassNames(files: seq<File>, paths: seq<nat>, depth: nat)
    requires depth > 0 && LeftPaths(files, paths, depth - 1)
    ensures Out(files, depth - 1) + OutOf(files, paths, depth, |paths|) == Out(files, depth)
  {
    assert paths[..|paths|] == paths;
    forall i: nat
      ensures i in Out(files, depth - 1) + OutOf(files, paths, depth, |paths|) <==> i in Out(files, depth)
    {
      OutOfMeans(files, paths, depth, |paths|, i);
      if i < |files| && LeftAt(files, i, depth) {
        LeftLess(files, i, depth);
      }
    }
  }

  // ---- All passes ----

  /** Names given by the passes, base names for the rest. */
  ghost predicate Final(files: seq<File>, paths: seq<nat>, names: Names, names': Names) {
    && (forall i: nat :: i in names' <==> i in names || i in paths)
    && forall i: nat :: i in names' ==> i < |files| && names'[i] == if i in names then names[i] else files[i].base
  }

  /** Files alike at every depth keep their base names. */
  method Fallback(files: seq<File>, paths: seq<nat>, names: Names) returns (names': Names)
    requires Places(files, paths) && forall i: nat :: i in names ==> i < |files|
    ensures Final(files, paths, names, names')
  {
    names' := names;
    var k := 0;
    while k < |paths|
      invariant k <= |paths|
      invariant Final(files, paths[..k], names, names')
    {
      assert paths[..k + 1] == paths[..k] + [paths[k]];
      if paths[k] !in names' {
        names' := names'[paths[k] := files[paths[k]].base];
      }
      k := k + 1;
    }
    assert paths[..k] == paths;
  }

  /** After the last pass, or one that left nobody. */
  ghost predicate Ended(files: seq<File>, paths: seq<nat>, depth: nat) {
    || (depth == DEEPEST && LeftPaths(files, paths, depth))
    || (Places(files, paths) && forall i: nat :: i < |files| ==> !LeftAt(files, i, depth))
  }

  lemma NobodyLeft(files: seq<File>, paths: seq<nat>, left: seq<nat>, depth: nat)
    requires Places(files, paths) && LeftPaths(files, left, depth) && |left| == 0
    ensures Ended(files, paths, depth)
  {}

  lemma FinalOutcome(files: seq<File>, paths: seq<nat>, depth: nat, names: Names, names': Names, i: nat)
    requires Ended(files, paths, depth) && Final(files, paths, names, names')
    requires NamesTo(files, Out(files, depth), names)
    requires i < |files|
    ensures i in names' && names'[i] == Outcome(files, i)
  {
    if i in Out(files, depth) {
      assert i in names.Keys;
    } else {
      OutcomeAt(files, i, DEEPEST + 1);
      assert i !in names.Keys;
    }
  }

  lemma FinalOutcomes(files: seq<File>, paths: seq<nat>, depth: nat, names: Names, names': Names)
    requires Ended(files, paths, depth) && Final(files, paths, names, names')
    requires NamesTo(files, Out(files, depth), names)
    ensures forall i: nat :: i in names' <==> i < |files|
    ensures forall i: nat :: i < |files| ==> names'[i] == Outcome(files, i)
  {
    forall i: nat | i < |files|
      ensures i in names' && names'[i] == Outcome(files, i)
    {
      FinalOutcome(files, paths, depth, names, names', i);
    }
  }

  lemma AllLeft(files: seq<File>, paths: seq<nat>)
    requires |paths| == |files| && forall k :: 0 <= k < |paths| ==> paths[k] == k
    ensures LeftPaths(files, paths, 0) && NamesTo(files, Out(files, 0), map[])
  {
    forall i: nat | i < |files|
      ensures i in paths
    {
      assert paths[i] == i;
    }
  }

  /** assignNames: every file gets the name it is to have. */
  method AssignNames(files: seq<File>) returns (names: Names)
    ensures forall i: nat :: i in names <==> i < |files|
    ensures forall i: nat :: i < |files| ==> names[i] == Outcome(files, i)
  {
    var paths: seq<nat> := seq(|files|, k requires 0 <= k < |files| => k);
    AllLeft(files, paths);
    names := map[];
    var depth := 1;
    ghost var last := 0;
    while depth <= DEEPEST
      invariant 1 <= depth <= DEEPEST + 1 && last == depth - 1
      invariant LeftPaths(files, paths, last) && NamesTo(files, Out(files, last), names)
    {
      var left;
      names, left := Pass(files, paths, depth, names);
      last := depth;
      if |left| == 0 {
        NobodyLeft(files, paths, left, last);
        break;
      }
      paths := left;
      depth := depth + 1;
    }
    assert Ended(files, paths, last);
    ghost var named := names;
    names := Fallback(files, paths, names);
    FinalOutcomes(files, paths, last, named, names);
  }
}
