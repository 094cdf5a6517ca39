/** In every run against an honest origin the cache hands out what a client without one would get. */
module CacheTransparency {
  import opened Basics
  import opened CacheFreshness
  import opened CacheVary
  import opened CacheStore
  import opened CacheRuns

  lemma StepKeeps(x: Syntax, o: Origin, s: State, event: Event)
    requires Inv(x, o, s) && Possible(s, event) && Allowed(x, o, s, event)
    ensures Inv(x, o, Do(x, s, event))
  {
    match event
    case Begin(id, request, now) => BeginKeeps(x, o, s, id, request, now);
    case Answer(id, r, now) =>
      FlightsDrop(x, o, s.flights, id, s.clock);
      var f := s.flights[id];
      if Is304(f, r) {
        Keeps304(x, o, s, id, f, r, now);
      } else {
        ResponseKeeps(x, o, s, id, f, r, now);
      }
    case Fail(id) => FlightsDrop(x, o, s.flights, id, s.clock);
    case BodyEnds(id) =>
      TeesDrop(x, o, s.tees, id, s.clock);
      StorePut(x, o, s.store, s.tees[id], s.clock);
    case BodyBreaks(id) => TeesDrop(x, o, s.tees, id, s.clock);
    case Lose(keys) => StoreDrop(x, o, s.store, keys, s.clock);
  }

  lemma {:induction false} RunKeeps(x: Syntax, o: Origin, s: State, events: seq<Event>, t: State)
    requires Inv(x, o, s) && Reaches(x, o, s, events, t)
    ensures Inv(x, o, t)
    decreases |events|
  {
    if events != [] {
      StepKeeps(x, o, s, events[0]);
      RunKeeps(x, o, Do(x, s, events[0]), events[1..], t);
    }
  }

  /** What each event keeps of the events so far and the state they lead to, every run keeps. */
  lemma {:induction false} EveryRun(keep: (seq<Event>, State) -> bool, x: Syntax, o: Origin,
                                    before: seq<Event>, s: State, events: seq<Event>, t: State)
    requires keep(before, s) && Reaches(x, o, s, events, t)
    requires forall b, y, event :: keep(b, y) && Possible(y, event) ==> keep(b + [event], Do(x, y, event))
    ensures keep(before + events, t)
    decreases |events|
  {
    if events == [] {
      assert before + events == before;
    } else {
      EveryRun(keep, x, o, before + [events[0]], Do(x, s, events[0]), events[1..], t);
      assert before + [events[0]] + events[1..] == before + events;
    }
  }

  /** Every body a run hands to a default or reloading request is the one a client without a cache
      would have got at that moment. */
  lemma CacheIsTransparent(x: Syntax, o: Origin, events: seq<Event>, t: State)
    requires Reaches(x, o, INITIAL, events, t)
    ensures Transparent(o, t.outputs)
  {
    RunKeeps(x, o, INITIAL, events, t);
  }
}
