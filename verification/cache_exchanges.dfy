/** Whatever a run's store holds, and whatever it is about to hold, came in an exchange that allowed it. */
module CacheExchanges {
  import opened Basics
  import opened CacheFreshness
  import opened CacheVary
  import opened CacheStore
  import opened CacheRuns
  import opened CacheTransparency
  import opened CacheAnswers

  /** One request and its answer, among the events. */
  datatype Exchange = Exchange(id: nat, request: Request, started: int, response: Response, at: int)

  predicate Happened(events: seq<Event>, y: Exchange) {
    Begin(y.id, y.request, y.started) in events && Answer(y.id, y.response, y.at) in events
  }

  /** The entry is of this exchange, and nothing in it forbade storing it. */
  predicate Left(x: Syntax, y: Exchange, e: Entry) {
    && MayStore(x, y.response) && !y.request.noStore
    && e.key == y.request.key && e.body == y.response.body
    && e.vary == VaryValues(Names(x, y.response.header), y.request.values)
  }

  ghost predicate Came(x: Syntax, events: seq<Event>, e: Entry) {
    exists y :: Happened(events, y) && Left(x, y, e)
  }

  ghost predicate AllCame<K>(x: Syntax, events: seq<Event>, entries: map<K, Entry>) {
    forall k :: k in entries ==> Came(x, events, entries[k])
  }

  ghost predicate FlightCame(x: Syntax, events: seq<Event>, id: nat, f: Flight) {
    && Begin(id, f.request, f.started) in events
    && (f.found.Some? ==> Came(x, events, f.found.value))
  }

  ghost predicate FlightsCame(x: Syntax, events: seq<Event>, flights: map<nat, Flight>) {
    forall id :: id in flights ==> FlightCame(x, events, id, flights[id])
  }

  ghost predicate StateCame(x: Syntax, events: seq<Event>, s: State) {
    AllCame(x, events, s.store) && AllCame(x, events, s.tees) && FlightsCame(x, events, s.flights)
  }

  // ---- Each event keeps it ----

  lemma CameLater(x: Syntax, events: seq<Event>, event: Event, e: Entry)
    requires Came(x, events, e)
    ensures Came(x, events + [event], e)
  {
    var y :| Happened(events, y) && Left(x, y, e);
    assert Happened(events + [event], y);
  }

  lemma AllLater<K>(x: Syntax, events: seq<Event>, event: Event, entries: map<K, Entry>)
    requires AllCame(x, events, entries)
    ensures AllCame(x, events + [event], entries)
  {
    forall k | k in entries ensures Came(x, events + [event], entries[k]) {
      CameLater(x, events, event, entries[k]);
    }
  }

  lemma FlightsLater(x: Syntax, events: seq<Event>, event: Event, flights: map<nat, Flight>)
    requires FlightsCame(x, events, flights)
    ensures FlightsCame(x, events + [event], flights)
  {
    forall id | id in flights ensures FlightCame(x, events + [event], id, flights[id]) {
      if flights[id].found.Some? {
        CameLater(x, events, event, flights[id].found.value);
      }
    }
  }

  lemma Later(x: Syntax, events: seq<Event>, event: Event, s: State)
    requires StateCame(x, events, s)
    ensures StateCame(x, events + [event], s)
  {
    AllLater(x, events, event, s.store);
    AllLater(x, events, event, s.tees);
    FlightsLater(x, events, event, s.flights);
  }

  lemma Put<K>(x: Syntax, events: seq<Event>, entries: map<K, Entry>, k: K, e: Entry)
    requires AllCame(x, events, entries) && Came(x, events, e)
    ensures AllCame(x, events, entries[k := e])
  {}

  lemma Drop<K>(x: Syntax, events: seq<Event>, entries: map<K, Entry>, gone: set<K>)
    requires AllCame(x, events, entries)
    ensures AllCame(x, events, entries - gone)
  {}

  lemma FlightsDrop(x: Syntax, events: seq<Event>, flights: map<nat, Flight>, id: nat)
    requires FlightsCame(x, events, flights)
    ensures FlightsCame(x, events, flights - {id})
  {}

  lemma FlightsPut(x: Syntax, events: seq<Event>, flights: map<nat, Flight>, id: nat, f: Flight)
    requires FlightsCame(x, events, flights) && FlightCame(x, events, id, f)
    ensures FlightsCame(x, events, flights[id := f])
  {}

  lemma BeginCame(x: Syntax, events: seq<Event>, s: State, id: nat, request: Request, now: int)
    requires StateCame(x, events, s) && Begin(id, request, now) in events
    ensures StateCame(x, events, AfterBegin(x, s, id, request, now))
  {
    var found := Lookup(x, Get(s.store, request.key), request);
    FlightsPut(x, events, s.flights, id, Flight(request, found, now));
  }

  lemma ConfirmedCame(x: Syntax, events: seq<Event>, f: Flight, e: Entry, update: Header, started: int, now: int)
    requires Came(x, events, e)
    ensures Came(x, events, Revalidated(e, update, started, now))
  {
    var y :| Happened(events, y) && Left(x, y, e);
    assert Left(x, y, Revalidated(e, update, started, now));
  }

  lemma NewCame(x: Syntax, events: seq<Event>, id: nat, f: Flight, r: Response, now: int)
    requires Begin(id, f.request, f.started) in events && Answer(id, r, now) in events && Stores(x, f.request, r)
    ensures Came(x, events, NewEntry(x, f.request, r, f.started, now))
  {
    var y := Exchange(id, f.request, f.started, r, now);
    assert Happened(events, y) && Left(x, y, NewEntry(x, f.request, r, f.started, now));
  }

  lemma AnswerCame(x: Syntax, events: seq<Event>, s: State, id: nat, r: Response, now: int)
    requires StateCame(x, events, s) && Answer(id, r, now) in events && Possible(s, Answer(id, r, now))
    ensures StateCame(x, events, Do(x, s, Answer(id, r, now)))
  {
    var f := s.flights[id];
    assert FlightCame(x, events, id, f);
    FlightsDrop(x, events, s.flights, id);
    if Is304(f, r) {
      var e := Revalidated(f.found.value, r.header, f.started, now);
      ConfirmedCame(x, events, f, f.found.value, r.header, f.started, now);
      Put(x, events, s.store, e.key, e);
    } else if Stores(x, f.request, r) {
      NewCame(x, events, id, f, r, now);
      Put(x, events, s.tees, id, NewEntry(x, f.request, r, f.started, now));
    } else {
      Drop(x, events, s.store, {f.request.key});
    }
  }

  lemma EventCame(x: Syntax, events: seq<Event>, s: State, event: Event)
    requires StateCame(x, events, s) && Possible(s, event)
    ensures StateCame(x, events + [event], Do(x, s, event))
  {
    var later := events + [event];
    Later(x, events, event, s);
    assert event in later;
    match event
    case Begin(id, request, now) => BeginCame(x, later, s, id, request, now);
    case Answer(id, r, now) => AnswerCame(x, later, s, id, r, now);
    case Fail(id) => FlightsDrop(x, later, s.flights, id);
    case BodyEnds(id) =>
      Put(x, later, s.store, s.tees[id].key, s.tees[id]);
      Drop(x, later, s.tees, {id});
    case BodyBreaks(id) => Drop(x, later, s.tees, {id});
    case Lose(keys) => Drop(x, later, s.store, keys);
  }

  /** In every run each stored body, and each that is on its way there, came with a response that may be
      stored, for a request that did not forbid it, and is kept under that request's key with its values. */
  lemma OnlyAllowedIsStored(x: Syntax, o: Origin, events: seq<Event>, t: State)
    requires Reaches(x, o, INITIAL, events, t)
    ensures AllCame(x, events, t.store) && AllCame(x, events, t.tees)
  {
    var keep := (b: seq<Event>, y: State) => StateCame(x, b, y);
    forall b, y, event | keep(b, y) && Possible(y, event) ensures keep(b + [event], Do(x, y, event)) {
      EventCame(x, b, y, event);
    }
    assert keep([], INITIAL);
    EveryRun(keep, x, o, [], INITIAL, events, t);
    assert [] + events == events;
  }
}
