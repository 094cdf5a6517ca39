/** How long a stored response may be used: the code's 64-bit arithmetic against that of RFC 9111,
    sections 4.2.1 and 4.2.3, over the whole numbers. */
module CacheFreshness {
  import opened Basics

  /** Header fields by lower-case name. */
  type Header = map<string, string>

  const MAX: int := TWO_63 - 1
  const SECOND: int := 1_000_000_000

  /** How field values are read: Cache-Control's directives, numbers as strconv.ParseInt returns them,
      dates (in nanoseconds), and the names a Vary value lists. Durations are 64-bit numbers too. */
  datatype Syntax = Syntax(
    control: string -> map<string, string>,
    number: string -> Option<Int64>,
    date: string -> Option<int>,
    names: string -> set<string>)

  /** time.Time.Sub saturates. */
  function Sub(t: int, u: int): Int64 {
    if t - u > MAX then MAX else if t - u < -TWO_63 then -TWO_63 else t - u
  }

  function Value(h: Header, name: string): string {
    if name in h then h[name] else ""
  }

  function Control(x: Syntax, h: Header): map<string, string> {
    x.control(Value(h, "cache-control"))
  }

  /** A stored response, but for its body. */
  datatype Stored = Stored(header: Header, requestTime: int, responseTime: int)

  function Date(x: Syntax, e: Stored): int {
    match x.date(Value(e.header, "date"))
    case Some(t) => if Value(e.header, "date") == "" then e.responseTime else t
    case None => e.responseTime
  }

  /** The seconds a max-age of this value stands for; a malformed one is stale at once. */
  function Seconds(x: Syntax, v: string): nat {
    match x.number(v)
    case Some(n) => if n < 0 then 0 else n
    case None => 0
  }

  // ---- The code ----

  function Lifetime(x: Syntax, e: Stored): Int64 {
    var cc := Control(x, e.header);
    if "no-cache" in cc then 0
    else if "max-age" in cc then Wrap64(Seconds(x, cc["max-age"]) * SECOND)
    else if Value(e.header, "expires") != "" then
      match x.date(Value(e.header, "expires"))
      case Some(t) => if t > Date(x, e) then Sub(t, Date(x, e)) else 0
      case None => 0
    else if Value(e.header, "last-modified") != "" then
      match x.date(Value(e.header, "last-modified"))
      case Some(t) => if Date(x, e) > t then Sub(Date(x, e), t) / 10 else 0
      case None => 0
    else 0
  }

  /** The Age field's seconds, none unless positive. */
  function AgeSeconds(x: Syntax, e: Stored): nat {
    if Value(e.header, "age") == "" then 0 else Seconds(x, Value(e.header, "age"))
  }

  function Age(x: Syntax, e: Stored, now: int): Int64 {
    var sinceDate := Sub(e.responseTime, Date(x, e));
    var apparent: Int64 := if sinceDate < 0 then 0 else sinceDate;
    var corrected := Wrap64(Wrap64(AgeSeconds(x, e) * SECOND) + Sub(e.responseTime, e.requestTime));
    var initial := if corrected > apparent then corrected else apparent;
    Wrap64(initial + Sub(now, e.responseTime))
  }

  predicate Fresh(x: Syntax, e: Stored, now: int) {
    Age(x, e, now) < Lifetime(x, e)
  }

  // ---- RFC 9111 ----

  /** freshness_lifetime, with the heuristic of a tenth of the time since the last modification. */
  function FreshnessLifetime(x: Syntax, e: Stored): int {
    var cc := Control(x, e.header);
    if "no-cache" in cc then 0
    else if "max-age" in cc then Seconds(x, cc["max-age"]) * SECOND
    else if Value(e.header, "expires") != "" then
      match x.date(Value(e.header, "expires"))
      case Some(t) => if t > Date(x, e) then t - Date(x, e) else 0
      case None => 0
    else if Value(e.header, "last-modified") != "" then
      match x.date(Value(e.header, "last-modified"))
      case Some(t) => if Date(x, e) > t then (Date(x, e) - t) / 10 else 0
      case None => 0
    else 0
  }

  function Larger(a: int, b: int): int {
    if a >= b then a else b
  }

  /** current_age: corrected_initial_age and resident_time. */
  function CurrentAge(x: Syntax, e: Stored, now: int): int {
    var apparentAge := Larger(0, e.responseTime - Date(x, e));
    var correctedAge := AgeSeconds(x, e) * SECOND + (e.responseTime - e.requestTime);
    Larger(apparentAge, correctedAge) + (now - e.responseTime)
  }

  predicate IsFresh(x: Syntax, e: Stored, now: int) {
    CurrentAge(x, e, now) < FreshnessLifetime(x, e)
  }

  // ---- Where they agree ----

  lemma WrapExact(n: int)
    ensures Wrap64(n) == n <==> -TWO_63 <= n < TWO_63
    ensures n >= 0 ==> Wrap64(n) <= n
  {}

  /** The longest lifetime the code can compute: the heuristic takes a tenth of what 64 bits hold. */
  function LongestLifetime(x: Syntax, e: Stored): int {
    if "max-age" in Control(x, e.header) || Value(e.header, "expires") != "" then MAX else MAX / 10
  }

  /** Wrapping and saturating never lengthen a lifetime, and shorten exactly those that cannot be held. */
  lemma LifetimeNeverLonger(x: Syntax, e: Stored)
    ensures Lifetime(x, e) <= FreshnessLifetime(x, e)
    ensures Lifetime(x, e) == FreshnessLifetime(x, e) <==> FreshnessLifetime(x, e) <= LongestLifetime(x, e)
  {
    var cc := Control(x, e.header);
    if "max-age" in cc {
      WrapExact(Seconds(x, cc["max-age"]) * SECOND);
    }
  }

  /** With clocks that do not run backwards, the age is exact as long as it fits in 64 bits. */
  lemma AgeExact(x: Syntax, e: Stored, now: int)
    requires e.requestTime <= e.responseTime <= now
    ensures Age(x, e, now) == CurrentAge(x, e, now) <==> CurrentAge(x, e, now) <= MAX
  {
    if CurrentAge(x, e, now) <= MAX {
      WrapExact(AgeSeconds(x, e) * SECOND);
      WrapExact(AgeSeconds(x, e) * SECOND + (e.responseTime - e.requestTime));
      WrapExact(CurrentAge(x, e, now));
    }
  }

  /** So nothing the code calls fresh is stale by RFC 9111, while its age fits in 64 bits. */
  lemma FreshMeansFresh(x: Syntax, e: Stored, now: int)
    requires e.requestTime <= e.responseTime <= now && CurrentAge(x, e, now) <= MAX
    requires Fresh(x, e, now)
    ensures IsFresh(x, e, now)
  {
    AgeExact(x, e, now);
    LifetimeNeverLonger(x, e);
  }

  /** And a fresh response is used, unless its lifetime is longer than the code can compute. */
  lemma FreshIsUsed(x: Syntax, e: Stored, now: int)
    requires e.requestTime <= e.responseTime <= now && IsFresh(x, e, now)
    requires FreshnessLifetime(x, e) <= LongestLifetime(x, e)
    ensures Fresh(x, e, now)
  {
    AgeExact(x, e, now);
    LifetimeNeverLonger(x, e);
  }

  /** An Age past 64 bits of nanoseconds makes an old response look new. */
  lemma AgeMayWrap(x: Syntax, e: Stored, now: int)
    requires e.header == map["cache-control" := "max-age=60", "age" := "18446744074"]
    requires x.control("max-age=60") == map["max-age" := "60"]
    requires x.number("60") == Some(60) && x.number("18446744074") == Some(18446744074)
    requires e.requestTime == e.responseTime == now
    ensures Fresh(x, e, now) && !IsFresh(x, e, now)
  {
    assert |"age"| == 3 && |"cache-control"| == 13 && |"max-age"| == 7 && |"no-cache"| == 8 && |"date"| == 4;
    assert Value(e.header, "date") == "";
    assert Value(e.header, "age") == "18446744074";
    assert Control(x, e.header) == map["max-age" := "60"];
    assert Lifetime(x, e) == 60 * SECOND;
    assert Age(x, e, now) == 290448384;
  }
}
