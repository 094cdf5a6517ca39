/** A session's cache over whole runs: requests looked up, sent and answered, bodies read to their
    end later or never, entries evicted at any time, many requests under way at once. */
module CacheRuns {
  import opened Basics
  import opened CacheFreshness
  import opened CacheVary
  import opened CacheStore

  datatype Mode = Default | NoCache | ForceCache | OnlyIfCached

  /** A cacheable request: its key (top-level site and URL), what it carries, and whether it says no-store. */
  datatype Request = Request(key: string, values: Values, mode: Mode, noStore: bool)

  datatype Response = Response(status: nat, header: Header, body: Body)

  // ---- sendCached ----

  datatype Decision = Serve(body: Body) | Nothing | Send(found: Option<Entry>)

  predicate Usable(x: Syntax, e: Entry, request: Request) {
    Matches(e.vary, Names(x, e.head.header), request.values)
  }

  /** The entry the request may use. */
  function Lookup(x: Syntax, found: Option<Entry>, request: Request): Option<Entry> {
    if found.Some? && Usable(x, found.value, request) then found else None
  }

  function Decide(x: Syntax, entry: Option<Entry>, request: Request, now: int): Decision {
    if entry.Some? && (request.mode == ForceCache || request.mode == OnlyIfCached) then Serve(entry.value.body)
    else if request.mode == OnlyIfCached then Nothing
    else if entry.Some? && request.mode == Default && Fresh(x, entry.value.head, now) then Serve(entry.value.body)
    else Send(entry)
  }

  function ETag(e: Stored): string {
    Value(e.header, "etag")
  }

  function LastModified(e: Stored): string {
    Value(e.header, "last-modified")
  }

  predicate Conditional(e: Stored) {
    ETag(e) != "" || LastModified(e) != ""
  }

  const ABOUT_BODY := {"content-length", "content-encoding", "transfer-encoding", "content-range"}

  /** RFC 9111, section 4.3.4: the 304's fields replace the stored ones, but for those about the body. */
  function Merge(stored: Header, update: Header): Header {
    stored + map k | k in update && k !in ABOUT_BODY :: update[k]
  }

  function Revalidated(e: Entry, update: Header, started: int, now: int): Entry {
    e.(head := Stored(Merge(e.head.header, update), started, now))
  }

  predicate Storable(x: Syntax, r: Response) {
    && (r.status == 200 || r.status == 203)
    && "no-store" !in Control(x, r.header)
    && Value(r.header, "vary") != "*"
    && ("max-age" in Control(x, r.header) || Value(r.header, "expires") != ""
        || Value(r.header, "etag") != "" || Value(r.header, "last-modified") != "")
  }

  function NewEntry(x: Syntax, request: Request, r: Response, started: int, now: int): Entry {
    Entry(request.key, Stored(r.header, started, now), r.body, VaryValues(Names(x, r.header), request.values))
  }

  predicate Stores(x: Syntax, request: Request, r: Response) {
    Storable(x, r) && !request.noStore
  }

  // ---- Runs ----

  /** A request sent: what it found, and when it started. */
  datatype Flight = Flight(request: Request, found: Option<Entry>, started: int)

  datatype Output = Output(request: Request, body: Body, at: int)

  /** Tees are bodies being read, with the entry each becomes at its end. */
  datatype State = State(
    store: map<string, Entry>,
    flights: map<nat, Flight>,
    tees: map<nat, Entry>,
    outputs: seq<Output>,
    clock: int)

  datatype Event =
    | Begin(id: nat, request: Request, now: int)
    | Answer(id: nat, response: Response, now: int)
    | Fail(id: nat)
    | BodyEnds(id: nat)
    | BodyBreaks(id: nat)
    | Lose(keys: set<string>)

  const INITIAL := State(map[], map[], map[], [], 0)

  function Get(store: map<string, Entry>, key: string): Option<Entry> {
    if key in store then Some(store[key]) else None
  }

  function AfterBegin(x: Syntax, s: State, id: nat, request: Request, now: int): State {
    var entry := Lookup(x, Get(s.store, request.key), request);
    match Decide(x, entry, request, now)
    case Serve(body) => s.(outputs := s.outputs + [Output(request, body, now)], clock := now)
    case Nothing => s.(clock := now)
    case Send(found) => s.(flights := s.flights[id := Flight(request, found, now)], clock := now)
  }

  function After304(s: State, id: nat, f: Flight, update: Header, now: int): State
    requires f.found.Some?
  {
    var e := Revalidated(f.found.value, update, f.started, now);
    s.(store := s.store[e.key := e], flights := s.flights - {id},
       outputs := s.outputs + [Output(f.request, e.body, now)], clock := now)
  }

  function AfterResponse(x: Syntax, s: State, id: nat, f: Flight, r: Response, now: int): State {
    var t := s.(flights := s.flights - {id}, outputs := s.outputs + [Output(f.request, r.body, now)], clock := now);
    if Stores(x, f.request, r) then t.(tees := t.tees[id := NewEntry(x, f.request, r, f.started, now)])
    else if f.found.Some? && "no-store" in Control(x, r.header) then t.(store := t.store - {f.request.key})
    else t
  }

  predicate Is304(f: Flight, r: Response) {
    r.status == 304 && f.found.Some? && Conditional(f.found.value.head)
  }

  predicate Possible(s: State, event: Event) {
    match event
    case Begin(id, _, now) => id !in s.flights && id !in s.tees && s.clock <= now
    case Answer(id, _, now) => id in s.flights && s.clock <= now
    case Fail(id) => id in s.flights
    case BodyEnds(id) => id in s.tees
    case BodyBreaks(id) => id in s.tees
    case Lose(_) => true
  }

  function Do(x: Syntax, s: State, event: Event): State
    requires Possible(s, event)
  {
    match event
    case Begin(id, request, now) => AfterBegin(x, s, id, request, now)
    case Answer(id, r, now) =>
      var f := s.flights[id];
      if Is304(f, r) then After304(s, id, f, r.header, now) else AfterResponse(x, s, id, f, r, now)
    case Fail(id) => s.(flights := s.flights - {id})
    case BodyEnds(id) => s.(store := s.store[s.tees[id].key := s.tees[id]], tees := s.tees - {id})
    case BodyBreaks(id) => s.(tees := s.tees - {id})
    case Lose(keys) => s.(store := s.store - keys)
  }

  // ---- What is asked of the origin ----

  /** What the origin would send, and what a pair of validators stands for. */
  datatype Origin = Origin(current: (string, Values, int) -> Body, stands: (string, string, string) -> Body)

  /** While the response is fresh by RFC 9111, every request it may answer would get its body. */
  ghost predicate Keeps(x: Syntax, o: Origin, key: string, request: Values, e: Stored, body: Body) {
    forall other: Values, t: int :: t >= e.responseTime && Agree(Names(x, e.header), request, other) && IsFresh(x, e, t)
      ==> o.current(key, other, t) == body
  }

  /** Its validators, if it has any, stand for its body. */
  ghost predicate Stands(o: Origin, key: string, e: Stored, body: Body) {
    Conditional(e) ==> o.stands(key, ETag(e), LastModified(e)) == body
  }

  const HALF: int := 0x4000_0000_0000_0000

  /** Times a 64-bit count of nanoseconds holds, and an age it holds too when one such time is added. */
  predicate InRange(x: Syntax, e: Stored) {
    && 0 <= e.requestTime <= e.responseTime < HALF
    && CurrentAge(x, e, e.responseTime) <= HALF
  }

  ghost predicate HonestEntry(x: Syntax, o: Origin, request: Request, e: Entry) {
    && "*" !in Names(x, e.head.header)
    && InRange(x, e.head)
    && Keeps(x, o, e.key, request.values, e.head, e.body)
    && Stands(o, e.key, e.head, e.body)
  }

  /** An answer to a flight. A 304 is given only when the stored validators stand for the current
      representation; it leaves Vary as it was. */
  ghost predicate Honest(x: Syntax, o: Origin, f: Flight, r: Response, now: int) {
    if Is304(f, r) then
      var e := f.found.value;
      && o.stands(e.key, ETag(e.head), LastModified(e.head)) == o.current(f.request.key, f.request.values, now)
      && Names(x, Merge(e.head.header, r.header)) == Names(x, e.head.header)
      && HonestEntry(x, o, f.request, Revalidated(e, r.header, f.started, now)
                                        .(body := o.current(f.request.key, f.request.values, now)))
    else
      && r.body == o.current(f.request.key, f.request.values, now)
      && (Stores(x, f.request, r) ==> HonestEntry(x, o, f.request, NewEntry(x, f.request, r, f.started, now)))
  }

  /** If the response is stored, the request told what it varies on; else the comparison of values
      would let requests that do not agree with it use the response. */
  predicate Telling(x: Syntax, request: Request, r: Response) {
    Stores(x, request, r) ==> Told(Names(x, r.header), request.values)
  }

  /** The origin is honest, what is stored tells, and times are in range. */
  ghost predicate Allowed(x: Syntax, o: Origin, s: State, event: Event) {
    match event
    case Begin(_, request, now) => 0 <= now < HALF
    case Answer(id, r, now) =>
      && id in s.flights && now < HALF && Honest(x, o, s.flights[id], r, now)
      && (Is304(s.flights[id], r) || Telling(x, s.flights[id].request, r))
    case _ => true
  }

  ghost predicate Reaches(x: Syntax, o: Origin, s: State, events: seq<Event>, t: State)
    decreases |events|
  {
    if events == [] then s == t
    else Possible(s, events[0]) && Allowed(x, o, s, events[0]) && Reaches(x, o, Do(x, s, events[0]), events[1..], t)
  }

  // ---- The invariant ----

  /** An entry is what an honest exchange left for some request like this one. */
  ghost predicate Good(x: Syntax, o: Origin, e: Entry, clock: int) {
    e.head.responseTime <= clock
    && exists request: Request :: Exchanged(x, o, request, e)
  }

  ghost predicate Exchanged(x: Syntax, o: Origin, request: Request, e: Entry) {
    && Told(Names(x, e.head.header), request.values) && HonestEntry(x, o, request, e)
    && e.vary == VaryValues(Names(x, e.head.header), request.values)
  }

  ghost predicate GoodStore(x: Syntax, o: Origin, store: map<string, Entry>, clock: int) {
    forall k :: k in store ==> store[k].key == k && Good(x, o, store[k], clock)
  }

  ghost predicate GoodTees(x: Syntax, o: Origin, tees: map<nat, Entry>, clock: int) {
    forall i :: i in tees ==> Good(x, o, tees[i], clock)
  }

  ghost predicate GoodFlight(x: Syntax, o: Origin, f: Flight, clock: int) {
    && f.started <= clock
    && (f.found.Some? ==>
          f.found.value.key == f.request.key && Good(x, o, f.found.value, clock) && Usable(x, f.found.value, f.request))
  }

  ghost predicate GoodFlights(x: Syntax, o: Origin, flights: map<nat, Flight>, clock: int) {
    forall i :: i in flights ==> GoodFlight(x, o, flights[i], clock)
  }

  /** What a client without a cache would have got. */
  ghost predicate Uncached(o: Origin, out: Output) {
    out.request.mode in {Default, NoCache} ==> out.body == o.current(out.request.key, out.request.values, out.at)
  }

  ghost predicate Transparent(o: Origin, outputs: seq<Output>) {
    forall i :: 0 <= i < |outputs| ==> Uncached(o, outputs[i])
  }

  ghost predicate Inv(x: Syntax, o: Origin, s: State) {
    && GoodStore(x, o, s.store, s.clock)
    && GoodTees(x, o, s.tees, s.clock)
    && GoodFlights(x, o, s.flights, s.clock)
    && Transparent(o, s.outputs)
  }

  lemma StoreLater(x: Syntax, o: Origin, s: State, later: int)
    requires Inv(x, o, s) && s.clock <= later
    ensures Inv(x, o, s.(clock := later))
  {}

  /** A usable entry the code finds fresh has the body the origin would send now. */
  lemma FreshEntryIsCurrent(x: Syntax, o: Origin, e: Entry, request: Request, now: int)
    requires Good(x, o, e, now) && Usable(x, e, request) && now < HALF
    ensures Fresh(x, e.head, now) ==> e.body == o.current(e.key, request.values, now)
  {
    var first: Request :| Exchanged(x, o, first, e);
    ToldMatches(Names(x, e.head.header), first.values, request.values);
    if Fresh(x, e.head, now) {
      FreshMeansFresh(x, e.head, now);
    }
  }

  /** A usable entry keeps its stored values as those of the request that used it. */
  lemma UsableValues(x: Syntax, o: Origin, e: Entry, request: Request, clock: int)
    requires Good(x, o, e, clock) && Usable(x, e, request)
    ensures e.vary == VaryValues(Names(x, e.head.header), request.values)
    ensures Told(Names(x, e.head.header), request.values)
    ensures Stands(o, e.key, e.head, e.body)
  {
    var first: Request :| Exchanged(x, o, first, e);
    var names := Names(x, e.head.header);
    ToldMatches(names, first.values, request.values);
    RestrictAgrees(names, first.values, request.values);
    ToldTogether(names, first.values, request.values);
  }

  /** A 304 hands back the current body, and the refreshed entry is honest for the request that got it. */
  lemma RevalidatedIsCurrent(x: Syntax, o: Origin, f: Flight, r: Response, clock: int, now: int)
    requires GoodFlight(x, o, f, clock) && clock <= now && Is304(f, r) && Honest(x, o, f, r, now)
    ensures f.found.value.body == o.current(f.request.key, f.request.values, now)
    ensures Good(x, o, Revalidated(f.found.value, r.header, f.started, now), now)
  {
    var e := f.found.value;
    UsableValues(x, o, e, f.request, clock);
    var kept := Revalidated(e, r.header, f.started, now);
    assert kept == kept.(body := e.body);
    assert Exchanged(x, o, f.request, kept);
  }

  // ---- One part of the state at a time ----

  lemma StorePut(x: Syntax, o: Origin, store: map<string, Entry>, e: Entry, clock: int)
    requires GoodStore(x, o, store, clock) && Good(x, o, e, clock)
    ensures GoodStore(x, o, store[e.key := e], clock)
  {}

  lemma StoreDrop(x: Syntax, o: Origin, store: map<string, Entry>, keys: set<string>, clock: int)
    requires GoodStore(x, o, store, clock)
    ensures GoodStore(x, o, store - keys, clock)
  {}

  lemma TeesPut(x: Syntax, o: Origin, tees: map<nat, Entry>, id: nat, e: Entry, clock: int)
    requires GoodTees(x, o, tees, clock) && Good(x, o, e, clock)
    ensures GoodTees(x, o, tees[id := e], clock)
  {}

  lemma TeesDrop(x: Syntax, o: Origin, tees: map<nat, Entry>, id: nat, clock: int)
    requires GoodTees(x, o, tees, clock)
    ensures GoodTees(x, o, tees - {id}, clock)
    ensures id in tees ==> Good(x, o, tees[id], clock)
  {}

  lemma FlightsDrop(x: Syntax, o: Origin, flights: map<nat, Flight>, id: nat, clock: int)
    requires GoodFlights(x, o, flights, clock)
    ensures GoodFlights(x, o, flights - {id}, clock)
    ensures id in flights ==> GoodFlight(x, o, flights[id], clock)
  {}

  lemma OutputAdded(o: Origin, outputs: seq<Output>, out: Output)
    requires Transparent(o, outputs) && Uncached(o, out)
    ensures Transparent(o, outputs + [out])
  {}

  /** What is served without the network is what the origin would send, but in the two modes that
      ask for the stored response whatever its age. */
  lemma ServedIsCurrent(x: Syntax, o: Origin, entry: Option<Entry>, request: Request, now: int)
    requires Decide(x, entry, request, now).Serve? && now < HALF
    requires entry.Some? ==>
               Good(x, o, entry.value, now) && Usable(x, entry.value, request) && entry.value.key == request.key
    ensures Uncached(o, Output(request, Decide(x, entry, request, now).body, now))
  {
    if request.mode == Default {
      FreshEntryIsCurrent(x, o, entry.value, request, now);
    }
  }

  lemma FlightAdded(x: Syntax, o: Origin, flights: map<nat, Flight>, id: nat, f: Flight, clock: int)
    requires GoodFlights(x, o, flights, clock) && GoodFlight(x, o, f, clock)
    ensures GoodFlights(x, o, flights[id := f], clock)
  {}

  lemma FoundIsGood(x: Syntax, o: Origin, store: map<string, Entry>, request: Request, now: int)
    requires GoodStore(x, o, store, now)
    ensures var entry := Lookup(x, Get(store, request.key), request);
            entry.Some? ==>
              Good(x, o, entry.value, now) && Usable(x, entry.value, request) && entry.value.key == request.key
  {}

  lemma BeginKeeps(x: Syntax, o: Origin, s: State, id: nat, request: Request, now: int)
    requires Inv(x, o, s) && s.clock <= now < HALF
    ensures Inv(x, o, AfterBegin(x, s, id, request, now))
  {
    StoreLater(x, o, s, now);
    var entry := Lookup(x, Get(s.store, request.key), request);
    var decision := Decide(x, entry, request, now);
    FoundIsGood(x, o, s.store, request, now);
    if decision.Serve? {
      ServedIsCurrent(x, o, entry, request, now);
      OutputAdded(o, s.outputs, Output(request, decision.body, now));
    } else if decision.Send? {
      FlightAdded(x, o, s.flights, id, Flight(request, decision.found, now), now);
    }
  }

  lemma Keeps304(x: Syntax, o: Origin, s: State, id: nat, f: Flight, r: Response, now: int)
    requires Inv(x, o, s) && s.clock <= now
    requires GoodFlight(x, o, f, s.clock) && Is304(f, r) && Honest(x, o, f, r, now)
    ensures Inv(x, o, After304(s, id, f, r.header, now))
  {
    RevalidatedIsCurrent(x, o, f, r, s.clock, now);
    StoreLater(x, o, s, now);
    var e := Revalidated(f.found.value, r.header, f.started, now);
    StorePut(x, o, s.store, e, now);
    FlightsDrop(x, o, s.flights, id, now);
    OutputAdded(o, s.outputs, Output(f.request, e.body, now));
  }

  lemma ResponseKeeps(x: Syntax, o: Origin, s: State, id: nat, f: Flight, r: Response, now: int)
    requires Inv(x, o, s) && s.clock <= now
    requires GoodFlight(x, o, f, s.clock) && !Is304(f, r) && Honest(x, o, f, r, now) && Telling(x, f.request, r)
    ensures Inv(x, o, AfterResponse(x, s, id, f, r, now))
  {
    StoreLater(x, o, s, now);
    FlightsDrop(x, o, s.flights, id, now);
    OutputAdded(o, s.outputs, Output(f.request, r.body, now));
    StoreDrop(x, o, s.store, {f.request.key}, now);
    if Stores(x, f.request, r) {
      var e := NewEntry(x, f.request, r, f.started, now);
      assert Exchanged(x, o, f.request, e);
      TeesPut(x, o, s.tees, id, e, now);
    }
  }
}
