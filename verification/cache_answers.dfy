/** When the cache answers by itself, when it asks, and what it makes of what it gets. */
module CacheAnswers {
  import opened Basics
  import opened CacheFreshness
  import opened CacheVary
  import opened CacheStore
  import opened CacheRuns
  import opened CacheTransparency

  /** The store has a response the request may use. */
  predicate Has(x: Syntax, s: State, request: Request) {
    request.key in s.store && Usable(x, s.store[request.key], request)
  }

  /** The request is answered on the spot, and nothing is sent. */
  predicate Answers(s: State, t: State, request: Request, body: Body, now: int) {
    t == s.(outputs := s.outputs + [Output(request, body, now)], clock := now)
  }

  /** The request is sent, with the validators of what was found, and nothing is handed out yet. */
  predicate Asks(s: State, t: State, id: nat, request: Request, found: Option<Entry>, now: int) {
    t == s.(flights := s.flights[id := Flight(request, found, now)], clock := now)
  }

  // ---- A request ----

  lemma TimesInRange(x: Syntax, o: Origin, s: State, request: Request, now: int)
    requires Inv(x, o, s) && s.clock <= now < HALF && request.key in s.store
    ensures var e := s.store[request.key].head;
            e.requestTime <= e.responseTime <= now && CurrentAge(x, e, now) <= MAX
  {
    var e := s.store[request.key];
    assert Good(x, o, e, s.clock);
    var first: Request :| Exchanged(x, o, first, e);
  }

  predicate Computed(x: Syntax, e: Stored) {
    FreshnessLifetime(x, e) <= LongestLifetime(x, e)
  }

  lemma FreshExactly(x: Syntax, e: Stored, now: int)
    requires e.requestTime <= e.responseTime <= now && CurrentAge(x, e, now) <= MAX
    ensures IsFresh(x, e, now) && Computed(x, e) ==> Fresh(x, e, now)
    ensures !IsFresh(x, e, now) ==> !Fresh(x, e, now)
  {
    if IsFresh(x, e, now) && Computed(x, e) {
      FreshIsUsed(x, e, now);
    }
    if Fresh(x, e, now) {
      FreshMeansFresh(x, e, now);
    }
  }

  lemma DefaultDoes(x: Syntax, s: State, id: nat, request: Request, now: int)
    requires Possible(s, Begin(id, request, now)) && request.mode == Default && Has(x, s, request)
    ensures var t, e := Do(x, s, Begin(id, request, now)), s.store[request.key];
            if Fresh(x, e.head, now) then Answers(s, t, request, e.body, now) else Asks(s, t, id, request, Some(e), now)
  {}

  /** In every run a default request whose stored response is fresh by RFC 9111 is answered with its body
      and not sent, if the code can compute the lifetime; one whose stored response is stale is sent. */
  lemma DefaultAnswers(x: Syntax, o: Origin, events: seq<Event>, s: State, id: nat, request: Request, now: int)
    requires Reaches(x, o, INITIAL, events, s)
    requires Possible(s, Begin(id, request, now)) && Allowed(x, o, s, Begin(id, request, now))
    requires request.mode == Default && Has(x, s, request)
    ensures var t, e := Do(x, s, Begin(id, request, now)), s.store[request.key];
            && (IsFresh(x, e.head, now) && Computed(x, e.head) ==> Answers(s, t, request, e.body, now))
            && (!IsFresh(x, e.head, now) ==> Asks(s, t, id, request, Some(e), now))
  {
    RunKeeps(x, o, INITIAL, events, s);
    TimesInRange(x, o, s, request, now);
    FreshExactly(x, s.store[request.key].head, now);
    DefaultDoes(x, s, id, request, now);
  }

  /** The two modes that ask for a stored response get it, whatever its age; a reload is always sent; without
      a response to use a request is sent bare, but for only-if-cached, which gets nothing. */
  lemma ModesAnswer(x: Syntax, s: State, id: nat, request: Request, now: int)
    requires Possible(s, Begin(id, request, now))
    ensures var t := Do(x, s, Begin(id, request, now));
            && (Has(x, s, request) && request.mode in {ForceCache, OnlyIfCached} ==>
                  Answers(s, t, request, s.store[request.key].body, now))
            && (Has(x, s, request) && request.mode == NoCache ==>
                  Asks(s, t, id, request, Some(s.store[request.key]), now))
            && (!Has(x, s, request) && request.mode != OnlyIfCached ==> Asks(s, t, id, request, None, now))
            && (!Has(x, s, request) && request.mode == OnlyIfCached ==> t == s.(clock := now))
  {}

  ghost predicate NoneOnlyIfCached(flights: map<nat, Flight>) {
    forall id :: id in flights ==> flights[id].request.mode != OnlyIfCached
  }

  /** In no run is an only-if-cached request sent. */
  lemma {:induction false} OnlyIfCachedIsNeverSent(x: Syntax, o: Origin, s: State, events: seq<Event>, t: State)
    requires NoneOnlyIfCached(s.flights) && Reaches(x, o, s, events, t)
    ensures NoneOnlyIfCached(t.flights)
    decreases |events|
  {
    if events != [] {
      OnlyIfCachedIsNeverSent(x, o, Do(x, s, events[0]), events[1..], t);
    }
  }

  // ---- An answer ----

  /** A stored response with another's fields laid over its own, but for those about the body. */
  ghost predicate Updated(was: Header, update: Header, h: Header) {
    forall k :: var newer := k in update && k !in {"content-length", "content-encoding", "transfer-encoding",
                                                  "content-range"};
                (k in h <==> newer || k in was) && (k in h ==> h[k] == if newer then update[k] else was[k])
  }

  /** After a 304 the stored body is handed back, and the entry stays with the fields and the times of the
      exchange that confirmed it. */
  lemma ConfirmedIsKept(x: Syntax, s: State, id: nat, r: Response, now: int)
    requires Possible(s, Answer(id, r, now)) && Is304(s.flights[id], r)
    ensures var f, t := s.flights[id], Do(x, s, Answer(id, r, now));
            var was := f.found.value;
            && was.key in t.store
            && var e := t.store[was.key];
            && t == s.(store := s.store[was.key := e], flights := s.flights - {id}, clock := now,
                       outputs := s.outputs + [Output(f.request, was.body, now)])
            && e.key == was.key && e.body == was.body && e.vary == was.vary
            && e.head.requestTime == f.started && e.head.responseTime == now
            && Updated(was.head.header, r.header, e.head.header)
  {}

  /** The response may be stored: its status, no word against it, and something to judge its age by. */
  predicate MayStore(x: Syntax, r: Response) {
    && r.status in {200, 203} && "no-store" !in Control(x, r.header) && Value(r.header, "vary") != "*"
    && !("max-age" !in Control(x, r.header)
         && forall k :: k in {"expires", "etag", "last-modified"} ==> Value(r.header, k) == "")
  }

  /** Any other answer is handed back as it is. It is set aside to be stored exactly if it may be and the
      request does not forbid it; a response that forbids storing removes the one that was found. */
  lemma AnswerIsKept(x: Syntax, s: State, id: nat, r: Response, now: int)
    requires Possible(s, Answer(id, r, now)) && !Is304(s.flights[id], r)
    ensures var f, t := s.flights[id], Do(x, s, Answer(id, r, now));
            && t.flights == s.flights - {id} && t.clock == now
            && t.outputs == s.outputs + [Output(f.request, r.body, now)]
            && (if MayStore(x, r) && !f.request.noStore then
                  && id in t.tees && t.tees == s.tees[id := t.tees[id]] && t.store == s.store
                  && t.tees[id].key == f.request.key && t.tees[id].body == r.body
                  && t.tees[id].head == Stored(r.header, f.started, now)
                else
                  && t.tees == s.tees
                  && t.store == if f.found.Some? && "no-store" in Control(x, r.header)
                                then s.store - {f.request.key} else s.store)
  {}

  // ---- Both ----

  /** A response read to its end answers the next default request that agrees with the first on what it
      varies on, for as long as it is fresh, without a word to the origin. */
  lemma StoredIsUsed(x: Syntax, s: State, id: nat, r: Response, at: int, next: nat, request: Request, now: int)
    requires Possible(s, Answer(id, r, at)) && !Is304(s.flights[id], r)
    requires var f := s.flights[id];
             && MayStore(x, r) && !f.request.noStore && f.started <= at <= now
             && next !in s.flights && next !in s.tees && next != id
             && request.key == f.request.key && request.mode == Default
             && Told(Names(x, r.header), f.request.values)
             && Agree(Names(x, r.header), f.request.values, request.values)
             && var e := Stored(r.header, f.started, at);
                IsFresh(x, e, now) && Computed(x, e)
    ensures var a := Do(x, s, Answer(id, r, at));
            Possible(a, BodyEnds(id)) && Possible(Do(x, a, BodyEnds(id)), Begin(next, request, now))
    ensures var b := Do(x, Do(x, s, Answer(id, r, at)), BodyEnds(id));
            Answers(b, Do(x, b, Begin(next, request, now)), request, r.body, now)
  {
    var f := s.flights[id];
    ToldMatches(Names(x, r.header), f.request.values, request.values);
    FreshIsUsed(x, Stored(r.header, f.started, at), now);
  }
}
