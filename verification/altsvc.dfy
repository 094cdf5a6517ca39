/** The memory of HTTP/3 advertisements and how long a failed attempt keeps the next one off. */
module AltSvc {
  import opened Basics

  // Durations in nanoseconds.
  const BASE: int := 300_000_000_000           // 5 minutes
  const LONGEST: int := 86_400_000_000_000     // 24 hours

  const TWO_47: int := 0x8000_0000_0000
  const TWO_17: int := 0x2_0000

  /** BASE << k in 64 bits; what is shifted out is gone. */
  function Shifted(k: nat): int {
    Wrap64(BASE * Pow2(k))
  }

  /** The period after so many failures, as the code computes it. */
  function Period(failures: nat): int
    requires failures > 0
  {
    var wait := Shifted(failures - 1);
    if wait > LONGEST || wait <= 0 then LONGEST else wait
  }

  /** The doubled period, capped. */
  function Doubled(failures: nat): int
    requires failures > 0
  {
    if BASE * Pow2(failures - 1) < LONGEST then BASE * Pow2(failures - 1) else LONGEST
  }

  lemma {:induction false} PowSum(a: nat, b: nat)
    ensures Pow2(a + b) == Pow2(a) * Pow2(b)
  {
    if a > 0 {
      PowSum(a - 1, b);
    }
  }

  lemma {:induction false} PowGrows(a: nat, b: nat)
    requires a <= b
    ensures Pow2(a) <= Pow2(b)
  {
    if a < b {
      PowGrows(a, b - 1);
    }
  }

  lemma WrapIs(n: int, q: nat, r: nat)
    requires n == TWO_64 * q + r && r < TWO_64
    ensures Wrap64(n) == if r >= TWO_63 then r - TWO_64 else r
  {}

  /** A multiple of 2^47 wraps to one: nothing positive up to LONGEST. */
  lemma WrapMultiple(q: nat)
    ensures Wrap64(TWO_47 * q) <= 0 || Wrap64(TWO_47 * q) > LONGEST
  {
    var a, b := q / TWO_17, q % TWO_17;
    assert q == TWO_17 * a + b;
    assert TWO_47 * q == TWO_64 * a + TWO_47 * b;
    assert (TWO_47 * q) % TWO_64 == TWO_47 * b;
  }

  lemma Powers()
    ensures Pow2(8) == 0x100 && Pow2(9) == 0x200 && Pow2(24) == 0x100_0000 && Pow2(25) == 0x200_0000
  {
    assert Pow2(8) == 0x100;
    PowSum(8, 8);
    PowSum(16, 8);
    PowSum(24, 1);
  }

  /** The powers from 25 to 36, each twice the one before. */
  function PowerAt(k: nat): int
    requires 25 <= k <= 36
  {
    if k == 25 then 0x200_0000 else 2 * PowerAt(k - 1)
  }

  lemma {:induction false} PowerAtIs(k: nat)
    requires 25 <= k <= 36
    ensures Pow2(k) == PowerAt(k)
  {
    if k > 25 {
      PowerAtIs(k - 1);
    } else {
      Powers();
    }
  }

  /** From 36 places on only multiples of 2^47 are left, whatever has been shifted out. */
  lemma FarShift(k: nat)
    requires k >= 36
    ensures Shifted(k) <= 0 || Shifted(k) > LONGEST
  {
    PowSum(36, k - 36);
    PowerAtIs(36);
    assert Pow2(36) == 0x10_0000_0000;
    var q := 146484375 * Pow2(k - 36);
    assert BASE * Pow2(k) == TWO_47 * q;
    WrapMultiple(q);
  }

  /** From 9 to 24 places the product fits in 64 bits and is past LONGEST. */
  lemma MiddleShift(k: nat)
    requires 9 <= k <= 24
    ensures Shifted(k) > LONGEST
  {
    Powers();
    PowGrows(9, k);
    PowGrows(k, 24);
  }

  /** From 25 to 35 places bits are lost, and what is left is negative or past LONGEST. */
  lemma WrappedShift(k: nat)
    requires 25 <= k <= 35
    ensures Shifted(k) <= 0 || Shifted(k) > LONGEST
  {
    PowerAtIs(k);
    match k
    case 25 => WrapIs(BASE * 0x2000000, 0, 10066329600000000000);
    case 26 => WrapIs(BASE * 0x4000000, 1, 1685915126290448384);
    case 27 => WrapIs(BASE * 0x8000000, 2, 3371830252580896768);
    case 28 => WrapIs(BASE * 0x10000000, 4, 6743660505161793536);
    case 29 => WrapIs(BASE * 0x20000000, 8, 13487321010323587072);
    case 30 => WrapIs(BASE * 0x40000000, 17, 8527897946937622528);
    case 31 => WrapIs(BASE * 0x80000000, 34, 17055795893875245056);
    case 32 => WrapIs(BASE * 0x100000000, 69, 15664847714040938496);
    case 33 => WrapIs(BASE * 0x200000000, 139, 12882951354372325376);
    case 34 => WrapIs(BASE * 0x400000000, 279, 7319158635035099136);
    case 35 => WrapIs(BASE * 0x800000000, 558, 14638317270070198272);
  }

  lemma NearShift(k: nat)
    requires k <= 8
    ensures 0 < Shifted(k) == BASE * Pow2(k) < LONGEST
  {
    Powers();
    PowGrows(k, 8);
  }

  /** Nine doublings pass LONGEST, in 64 bits or out of them. */
  lemma LateShift(k: nat)
    requires k >= 9
    ensures BASE * Pow2(k) > LONGEST && (Shifted(k) <= 0 || Shifted(k) > LONGEST)
  {
    Powers();
    PowGrows(9, k);
    if k <= 24 {
      MiddleShift(k);
    } else if k <= 35 {
      WrappedShift(k);
    } else {
      FarShift(k);
    }
  }

  /** The wrapping shift computes the capped doubling for every number of failures. */
  lemma PeriodIsDoubled(failures: nat)
    requires failures > 0
    ensures Period(failures) == Doubled(failures)
  {
    if failures <= 9 {
      NearShift(failures - 1);
    } else {
      LateShift(failures - 1);
    }
  }

  /** So it starts at five minutes, never shrinks, and never passes a day. */
  lemma PeriodGrows(a: nat, b: nat)
    requires 0 < a <= b
    ensures Period(1) == BASE && Period(a) <= Period(b) <= LONGEST
  {
    PeriodIsDoubled(1);
    PeriodIsDoubled(a);
    PeriodIsDoubled(b);
    PowGrows(a - 1, b - 1);
  }

  // ---- The memory ----

  /** Times are after zero, which stands for never. */
  datatype Entry = Entry(expires: int, broken: int, failures: nat)

  const NOTHING := Entry(0, 0, 0)

  /** What a response's Alt-Svc field says of the address: withdrawn, or an h3 alternative for so long. */
  datatype Advertisement = Clear | H3(ttl: int) | Other

  type Memory = map<string, Entry>

  /** A session's switches: Alt-Svc turned off, and a profile that speaks HTTP/3. */
  datatype Options = Options(off: bool, h3: bool)

  function At(m: Memory, key: string): Entry {
    if key in m then m[key] else NOTHING
  }

  function Noted(o: Options, m: Memory, key: string, ad: Advertisement, now: int): Memory {
    if o.off then m
    else
      match ad
      case Clear => m - {key}
      case H3(ttl) => m[key := At(m, key).(expires := now + ttl)]
      case Other => m
  }

  function Marked(m: Memory, key: string, now: int): Memory {
    var e := At(m, key);
    m[key := e.(failures := e.failures + 1, broken := now + Period(e.failures + 1))]
  }

  predicate UsesH3(o: Options, m: Memory, key: string, now: int) {
    !o.off && o.h3 && key in m && now <= m[key].expires && now > m[key].broken
  }

  predicate IsBroken(m: Memory, key: string, now: int) {
    key in m && now < m[key].broken
  }

  class Session {
    const options: Options
    var altSvc: Memory

    constructor (options: Options)
      ensures altSvc == map[] && this.options == options
    {
      this.options, altSvc := options, map[];
    }

    method NoteAltSvc(key: string, ad: Advertisement, now: int)
      modifies this
      ensures altSvc == Noted(options, old(altSvc), key, ad, now)
    {
      if options.off {
        return;
      }
      if ad.Clear? {
        altSvc := altSvc - {key};
        return;
      }
      if ad.Other? {
        return;
      }
      var e := At(altSvc, key).(expires := now + ad.ttl);
      altSvc := altSvc[key := e];
    }

    method MarkAltSvcBroken(key: string, now: int)
      modifies this
      ensures altSvc == Marked(old(altSvc), key, now)
    {
      var e := At(altSvc, key);
      e := e.(failures := e.failures + 1);
      var wait := Shifted(e.failures - 1);
      if wait > LONGEST || wait <= 0 {
        wait := LONGEST;
      }
      altSvc := altSvc[key := e.(broken := now + wait)];
    }

    method AltSvcH3(key: string, now: int) returns (ok: bool)
      ensures ok == UsesH3(options, altSvc, key, now)
      ensures ok ==> !IsBroken(altSvc, key, now)
    {
      if options.off || !options.h3 {
        return false;
      }
      if key !in altSvc || now > altSvc[key].expires {
        return false;
      }
      ok := now > altSvc[key].broken;
    }
  }

  // ---- Runs ----

  datatype Event = Note(key: string, ad: Advertisement, at: int) | Mark(key: string, at: int)

  function Run(o: Options, events: seq<Event>): Memory {
    if events == [] then map[]
    else
      var m := Run(o, events[..|events| - 1]);
      match events[|events| - 1]
      case Note(key, ad, at) => Noted(o, m, key, ad, at)
      case Mark(key, at) => Marked(m, key, at)
  }

  /** The event withdraws the address. */
  predicate Withdraws(o: Options, event: Event, key: string) {
    !o.off && event.Note? && event.key == key && event.ad == Clear
  }

  /** Failures of the address since it was last withdrawn. */
  function Failures(o: Options, events: seq<Event>, key: string): nat {
    if events == [] then 0
    else
      var before, last := Failures(o, events[..|events| - 1], key), events[|events| - 1];
      if Withdraws(o, last, key) then 0 else if last.Mark? && last.key == key then before + 1 else before
  }

  /** The time of the last of them. */
  function LastFailure(o: Options, events: seq<Event>, key: string): int {
    if events == [] then 0
    else
      var before, last := LastFailure(o, events[..|events| - 1], key), events[|events| - 1];
      if Withdraws(o, last, key) then 0 else if last.Mark? && last.key == key then last.at else before
  }

  /** The end of the last advertisement since then; 0 if there was none. */
  function Expiry(o: Options, events: seq<Event>, key: string): int {
    if events == [] then 0
    else
      var before, last := Expiry(o, events[..|events| - 1], key), events[|events| - 1];
      if Withdraws(o, last, key) then 0
      else if !o.off && last.Note? && last.key == key && last.ad.H3? then last.at + last.ad.ttl
      else before
  }

  lemma {:induction false} RunMeans(o: Options, events: seq<Event>, key: string)
    ensures var e, k := At(Run(o, events), key), Failures(o, events, key);
            && e.failures == k
            && e.broken == (if k == 0 then 0 else LastFailure(o, events, key) + Period(k))
            && e.expires == Expiry(o, events, key)
    decreases |events|
  {
    if events != [] {
      RunMeans(o, events[..|events| - 1], key);
    }
  }

  /** In every run: while the doubled period since the last failure lasts, the address is broken and
      HTTP/3 is not tried; after it, HTTP/3 is tried exactly as long as the last advertisement lasts, in
      a session that has it on. */
  lemma BrokenForDoubledPeriod(o: Options, events: seq<Event>, key: string, now: int)
    requires now > 0
    ensures var m, k := Run(o, events), Failures(o, events, key);
            var until := if k == 0 then 0 else LastFailure(o, events, key) + Doubled(k);
            && (IsBroken(m, key, now) <==> now < until)
            && (UsesH3(o, m, key, now) <==> !o.off && o.h3 && until < now <= Expiry(o, events, key))
  {
    RunMeans(o, events, key);
    if Failures(o, events, key) > 0 {
      PeriodIsDoubled(Failures(o, events, key));
    }
  }
}
