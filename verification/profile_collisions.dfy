/** Files that get one name though their base names differ. */
module ProfileCollisions {
  import opened ProfileNames

  /** The browser of a base name that goes on after an underscore. */
  lemma BrowserOf(browser: string, rest: string)
    requires '_' !in browser
    ensures Before(browser + "_" + rest) == browser
  {
    BeforeKeeps(browser, "_" + rest);
    assert browser + "_" + rest == browser + ("_" + rest);
  }

  /** Two files alike at every depth, and one whose name of three parts is the base name of the first. */
  function Colliding(x: string, y: Component): seq<File> {
    [File(x + "-" + y + "_z-o", ["2"], "p"), File(x + "-" + y + "_k", ["2"], "p"), File(x, [y + "_z"], "o")]
  }

  lemma CollidingNames(x: string, y: Component, depth: nat)
    requires '_' !in x && '_' !in y && depth > 0
    ensures var fs := Colliding(x, y);
            && Name(fs[0], depth) == Name(fs[1], depth) == x + "-" + y + "-2-p"
            && Name(fs[2], depth) == fs[0].base
  {
    BrowserOf(x + "-" + y, "z-o");
    BrowserOf(x + "-" + y, "k");
    BeforeKeeps(x, "");
    assert x + "-" + y + "_" + "z-o" == x + "-" + y + "_z-o";
    assert x + "-" + y + "_" + "k" == x + "-" + y + "_k";
    assert x + "" == x;
    assert x + "-" + (y + "_z") + "-" + "o" == x + "-" + y + "_z-o";
    assert (x + "-" + y) + "-" + "2" + "-" + "p" == x + "-" + y + "-2-p";
  }

  lemma ThirdDiffers(x: string, y: string)
    ensures x + "-" + y + "_z-o" != x + "-" + y + "-2-p" && x + "-" + y + "_z-o" != x + "-" + y + "_k"
    ensures x != x + "-" + y + "_z-o" && x != x + "-" + y + "_k"
  {
    var a, b, c := x + "-" + y + "_z-o", x + "-" + y + "-2-p", x + "-" + y + "_k";
    var n := |x + "-" + y|;
    assert a[n] == '_' && b[n] == '-' && |a| == n + 4 && |c| == n + 2 && |x| < n;
  }

  lemma {:induction false} TwinsStayLeft(files: seq<File>, depth: nat)
    requires |files| == 3 && forall d :: 0 < d <= depth ==> Name(files[0], d) == Name(files[1], d)
    ensures LeftAt(files, 0, depth) && LeftAt(files, 1, depth)
  {
    if depth > 0 {
      TwinsStayLeft(files, depth - 1);
      HasRival(files, 0, 1, depth);
      HasRival(files, 1, 0, depth);
    }
  }

  lemma TwinsOutcome(files: seq<File>)
    requires |files| == 3 && forall d :: 0 < d <= DEEPEST ==> Name(files[0], d) == Name(files[1], d)
    ensures Outcome(files, 0) == files[0].base
  {
    TwinsStayLeft(files, DEEPEST);
    OutcomeAt(files, 0, DEEPEST + 1);
  }

  /** A name no other file has is given at once. */
  lemma AloneOutcome(files: seq<File>, i: nat)
    requires i < |files| && forall j :: 0 <= j < |files| && j != i ==> Name(files[j], 1) != Name(files[i], 1)
    ensures Outcome(files, i) == Name(files[i], 1) && !LeftAt(files, i, 1)
  {
    forall j: nat | j < |files|
      ensures !Rival(files, i, j, 1)
    {}
    WithoutRival(files, i, 1);
    OutcomeAt(files, i, 1);
  }

  lemma CollidingParts(x: string, y: Component)
    requires '_' !in x && '_' !in y
    ensures var fs := Colliding(x, y);
            DifferentBases(fs) && Browser(fs[0]) == x + "-" + y && forall i :: 0 <= i < 3 ==> '-' !in fs[i].os
  {
    ThirdDiffers(x, y);
    BrowserOf(x + "-" + y, "z-o");
    assert x + "-" + y + "_" + "z-o" == x + "-" + y + "_z-o";
  }

  /** A browser name with a hyphen is enough: such files can get one name, though no system has a hyphen
      and the base names differ. */
  lemma HyphenCollides(x: string, y: Component)
    requires '_' !in x && '_' !in y
    ensures var fs := Colliding(x, y);
            && DifferentBases(fs) && Browser(fs[0]) == x + "-" + y && (forall i :: 0 <= i < 3 ==> '-' !in fs[i].os)
            && Outcome(fs, 0) == Outcome(fs, 2)
  {
    var fs := Colliding(x, y);
    CollidingParts(x, y);
    forall d | 0 < d <= DEEPEST
      ensures Name(fs[0], d) == Name(fs[1], d)
    {
      CollidingNames(x, y, d);
    }
    TwinsOutcome(fs);
    CollidingNames(x, y, 1);
    ThirdDiffers(x, y);
    AloneOutcome(fs, 2);
  }

  // ---- And a hyphen behind a dot ----

  /** A file whose system has a dot before a hyphen, and two that share their first component. */
  function Doubtful(b: string, p: Component, u: Component, v: Component, w: Component, y: string): seq<File> {
    [File(b + "_1", [p], u + "." + v + "-" + y), File(b + "_2", [p + "-" + u, v], y),
     File(b + "_3", [p + "-" + u, w], y)]
  }

  lemma DoubtfulBrowsers(b: string)
    requires '_' !in b
    ensures Before(b + "_1") == b && Before(b + "_2") == b && Before(b + "_3") == b
    ensures b + "_1" != b + "_2" && b + "_1" != b + "_3" && b + "_2" != b + "_3"
  {
    BrowserOf(b, "1");
    BrowserOf(b, "2");
    BrowserOf(b, "3");
    assert b + "_" + "1" == b + "_1" && b + "_" + "2" == b + "_2" && b + "_" + "3" == b + "_3";
    assert (b + "_1")[|b| + 1] == '1' && (b + "_2")[|b| + 1] == '2' && (b + "_3")[|b| + 1] == '3';
  }

  lemma DottedTwo(p: Component, q: Component)
    ensures Dotted([p, q]) == p + "." + q
  {
    assert [p, q][1..] == [q];
  }

  lemma DoubtfulVersions(p: Component, u: Component, v: Component)
    ensures Dotted(Cut([p], 1)) == p && Dotted(Cut([p + "-" + u, v], 1)) == p + "-" + u
    ensures Dotted(Cut([p + "-" + u, v], 2)) == p + "-" + u + "." + v
  {
    assert [p + "-" + u, v][..1] == [p + "-" + u];
    DottedTwo(p + "-" + u, v);
  }

  lemma FirstJoined(b: string, p: string, u: string, v: string, y: string)
    ensures Joined(b, p, u + "." + v + "-" + y) == b + "-" + p + "-" + u + "." + v + "-" + y
  {}

  lemma SecondJoined(b: string, p: string, u: string, v: string, y: string)
    ensures Joined(b, p + "-" + u + "." + v, y) == b + "-" + p + "-" + u + "." + v + "-" + y
  {}

  lemma ShortJoined(b: string, p: string, u: string, y: string)
    ensures Joined(b, p + "-" + u, y) == b + "-" + p + "-" + u + "-" + y
  {}

  lemma NameIs(f: File, depth: nat, browser: string, version: string)
    requires Browser(f) == browser && Dotted(Cut(f.version, depth)) == version && version != ""
    ensures Name(f, depth) == Joined(browser, version, f.os)
  {}

  /** One of the two that share their first component. */
  lemma SharingNames(f: File, b: string, p: Component, u: Component, v: Component)
    requires Browser(f) == b && f.version == [p + "-" + u, v]
    ensures Name(f, 1) == b + "-" + p + "-" + u + "-" + f.os
    ensures Name(f, 2) == b + "-" + p + "-" + u + "." + v + "-" + f.os
  {
    DoubtfulVersions(p, u, v);
    NameIs(f, 1, b, p + "-" + u);
    NameIs(f, 2, b, p + "-" + u + "." + v);
    ShortJoined(b, p, u, f.os);
    SecondJoined(b, p, u, v, f.os);
  }

  lemma DoubtfulNames(b: string, p: Component, u: Component, v: Component, w: Component, y: string)
    requires '_' !in b && p != ""
    ensures var fs, start := Doubtful(b, p, u, v, w, y), b + "-" + p + "-" + u;
            && Name(fs[0], 1) == start + "." + v + "-" + y == Name(fs[1], 2)
            && Name(fs[1], 1) == start + "-" + y == Name(fs[2], 1)
            && Name(fs[2], 2) == start + "." + w + "-" + y
  {
    var fs := Doubtful(b, p, u, v, w, y);
    DoubtfulBrowsers(b);
    DoubtfulVersions(p, u, v);
    NameIs(fs[0], 1, b, p);
    FirstJoined(b, p, u, v, y);
    SharingNames(fs[1], b, p, u, v);
    SharingNames(fs[2], b, p, u, w);
  }

  lemma DoubtfulDiffer(start: string, v: string, w: string, y: string)
    requires v != w
    ensures start + "." + v + "-" + y != start + "-" + y
    ensures start + "." + v + "-" + y != start + "." + w + "-" + y
  {
    var a, b, c := start + "." + v + "-" + y, start + "-" + y, start + "." + w + "-" + y;
    var n := |start|;
    assert a[n] == '.' && b[n] == '-';
    assert a[n + 1..n + 1 + |v|] == v && c[n + 1..n + 1 + |w|] == w;
    assert |a| == n + |v| + |y| + 2 && |c| == n + |w| + |y| + 2;
  }

  /** Named in the second pass: shared with one other in the first, and with none still left in it. */
  lemma SecondOutcome(files: seq<File>)
    requires |files| == 3 && !LeftAt(files, 0, 1) && Name(files[1], 1) == Name(files[2], 1)
    requires Name(files[1], 2) != Name(files[2], 2)
    ensures Outcome(files, 1) == Name(files[1], 2)
  {
    HasRival(files, 1, 2, 1);
    forall j: nat | j < |files|
      ensures !Rival(files, 1, j, 2)
    {
      assert j == 0 || j == 1 || j == 2;
    }
    WithoutRival(files, 1, 2);
    OutcomeAt(files, 1, 2);
  }

  /** A system with one dot before a hyphen is enough too: such files get one name, whatever their browser. */
  lemma DotAndHyphenCollide(b: string, p: Component, u: Component, v: Component, w: Component, y: string)
    requires '_' !in b && p != "" && v != w
    ensures var fs := Doubtful(b, p, u, v, w, y);
            && DifferentBases(fs) && (forall i :: 0 <= i < 3 ==> Browser(fs[i]) == b)
            && Outcome(fs, 0) == Outcome(fs, 1)
  {
    var fs := Doubtful(b, p, u, v, w, y);
    DoubtfulBrowsers(b);
    DoubtfulNames(b, p, u, v, w, y);
    DoubtfulDiffer(b + "-" + p + "-" + u, v, w, y);
    AloneOutcome(fs, 0);
    SecondOutcome(fs);
  }
}
