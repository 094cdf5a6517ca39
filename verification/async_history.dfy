/** What a run's own steps say of a call: which frames its interim results and its answer must be. Every
    law here is read off the list of steps. */
module AsyncHistory {
  import opened AsyncCalls
  import opened AsyncRuns
  import opened AsyncDelivery

  // ---- What the steps say ----

  /** The frames the call's work ended with, in order: at most one, as it turns out. */
  function Finishes(steps: seq<Step>, rid: nat): seq<string> {
    if steps == [] then []
    else
      var before, last := Finishes(steps[..|steps| - 1], rid), steps[|steps| - 1];
      if last.Finish? && last.rid == rid then before + [last.frame] else before
  }

  /** A cancellation came while the work went on. */
  predicate CancelledInFlight(steps: seq<Step>, rid: nat) {
    steps != [] &&
    var before := steps[..|steps| - 1];
    (steps[|steps| - 1] == CancelLocks(rid) && Finishes(before, rid) == []) || CancelledInFlight(before, rid)
  }

  predicate InFlight(steps: seq<Step>, rid: nat) {
    Finishes(steps, rid) == [] && !CancelledInFlight(steps, rid)
  }

  /** The interim frames that came while the work went on and nobody had cancelled it. */
  function Kept(steps: seq<Step>, rid: nat): seq<string> {
    if steps == [] then []
    else
      var before, last := steps[..|steps| - 1], steps[|steps| - 1];
      if last.InterimArrives? && last.rid == rid && InFlight(before, rid) then Kept(before, rid) + [last.frame]
      else Kept(before, rid)
  }

  /** How often the caller came for the call. */
  function Takes(steps: seq<Step>, rid: nat): nat {
    if steps == [] then 0
    else Takes(steps[..|steps| - 1], rid) + One(steps[|steps| - 1] == TakeLocks(rid))
  }

  /** The interim frames among what was handed back. */
  function InterimFrames(results: seq<Result>): seq<string> {
    if results == [] then []
    else
      var before, last := InterimFrames(results[..|results| - 1]), results[|results| - 1];
      if last.Interim? then before + [last.frame] else before
  }

  // ---- What a call's state has to do with it ----

  predicate AtWork(c: CallState) {
    c.worker in {Working, Stored} || c.worker.Registered?
  }

  /** The frames, by what the steps say of them. */
  ghost predicate FramesMatch(c: CallState, finishes: seq<string>, inFlight: bool, kept: seq<string>) {
    && finishes == (if c.call.done then [c.call.frame] else [])
    && (c.call.dropped <==> inFlight)
    && c.appended == kept
    && InterimFrames(c.results) + c.call.events == kept
    && forall f :: Answer(f) in c.results ==> c.call.done && f == c.call.frame
  }

  /** Who still knows the call. */
  ghost predicate PlaceMatches(c: CallState, pushed: bool, cancels: bool, takes: nat) {
    && (c.call.done <==> !AtWork(c))
    && (!c.call.done ==> c.registered)
    && (c.worker == MustPush || pushed ==> c.call.done && !c.call.dropped)
    && (c.cancelled ==> cancels)
    && (cancels ==> !c.registered || c.call.dropped)
    && takes == |c.results| + c.misses + c.readingOk + c.readingGone
  }

  ghost predicate History(steps: seq<Step>, rid: nat, c: CallState) {
    && FramesMatch(c, Finishes(steps, rid), CancelledInFlight(steps, rid), Kept(steps, rid))
    && PlaceMatches(c, PushFinal(rid) in steps, CancelLocks(rid) in steps, Takes(steps, rid))
  }

  // ---- Each step keeps it ----

  lemma Appended(steps: seq<Step>, step: Step, rid: nat)
    ensures Finishes(steps + [step], rid)
            == if step.Finish? && step.rid == rid then Finishes(steps, rid) + [step.frame] else Finishes(steps, rid)
    ensures CancelledInFlight(steps + [step], rid)
            <==> CancelledInFlight(steps, rid) || (step == CancelLocks(rid) && Finishes(steps, rid) == [])
    ensures Kept(steps + [step], rid)
            == if step.InterimArrives? && step.rid == rid && InFlight(steps, rid) then Kept(steps, rid) + [step.frame]
               else Kept(steps, rid)
    ensures Takes(steps + [step], rid) == Takes(steps, rid) + One(step == TakeLocks(rid))
    ensures PushFinal(rid) in steps + [step] <==> PushFinal(rid) in steps || step == PushFinal(rid)
    ensures CancelLocks(rid) in steps + [step] <==> CancelLocks(rid) in steps || step == CancelLocks(rid)
  {
    assert (steps + [step])[..|steps|] == steps;
  }

  lemma ResultsAppend(results: seq<Result>, r: Result)
    ensures InterimFrames(results + [r]) == InterimFrames(results) + if r.Interim? then [r.frame] else []
    ensures forall x :: x in results + [r] <==> x in results || x == r
  {
    assert (results + [r])[..|results|] == results;
  }

  /** Steps that no history looks at. */
  predicate Unseen(step: Step, rid: nat) {
    || !(step.InterimArrives? || step.Finish? || step.PushFinal? || step.TakeLocks? || step.CancelLocks?)
    || step.rid != rid
  }

  lemma UnseenKeeps(steps: seq<Step>, step: Step, rid: nat, c: CallState)
    requires Unseen(step, rid) && History(steps, rid, c)
    ensures History(steps + [step], rid, c)
  {
    Appended(steps, step, rid);
  }

  /** A call that differs in nothing a history looks at. */
  predicate Alike(c: CallState, d: CallState) {
    && d.call == c.call && d.registered == c.registered && d.appended == c.appended && d.results == c.results
    && (AtWork(d) <==> AtWork(c)) && (d.worker == MustPush ==> c.worker == MustPush)
    && d.cancelled == c.cancelled
    && d.misses + d.readingOk + d.readingGone == c.misses + c.readingOk + c.readingGone
  }

  lemma AlikeKeeps(steps: seq<Step>, step: Step, rid: nat, c: CallState, d: CallState)
    requires Unseen(step, rid) && History(steps, rid, c) && Alike(c, d)
    ensures History(steps + [step], rid, d)
  {
    Appended(steps, step, rid);
  }

  lemma InterimFrame(c: CallState, frame: string, finishes: seq<string>, inFlight: bool, kept: seq<string>)
    requires FramesMatch(c, finishes, inFlight, kept) && (c.registered || c.call.done)
    ensures FramesMatch(AfterInterim(c, frame), finishes, inFlight,
                        if finishes == [] && !inFlight then kept + [frame] else kept)
  {
    var before := InterimFrames(c.results);
    assert before + (c.call.events + [frame]) == before + c.call.events + [frame];
  }

  lemma InterimHistory(steps: seq<Step>, rid: nat, frame: string, c: CallState)
    requires History(steps, rid, c)
    ensures History(steps + [InterimArrives(rid, frame)], rid, AfterInterim(c, frame))
  {
    Appended(steps, InterimArrives(rid, frame), rid);
    InterimFrame(c, frame, Finishes(steps, rid), CancelledInFlight(steps, rid), Kept(steps, rid));
  }

  lemma FinishFrame(c: CallState, frame: string, finishes: seq<string>, inFlight: bool, kept: seq<string>)
    requires FramesMatch(c, finishes, inFlight, kept) && !c.call.done
    ensures FramesMatch(AfterFinish(c, frame), finishes + [frame], inFlight, kept)
  {}

  lemma FinishPlace(c: CallState, frame: string, pushed: bool, cancels: bool, takes: nat)
    requires PlaceMatches(c, pushed, cancels, takes) && AtWork(c)
    ensures PlaceMatches(AfterFinish(c, frame), pushed, cancels, takes)
  {}

  lemma FinishHistory(steps: seq<Step>, rid: nat, frame: string, c: CallState)
    requires History(steps, rid, c) && c.worker in {Working, Stored}
    ensures History(steps + [Finish(rid, frame)], rid, AfterFinish(c, frame))
  {
    Appended(steps, Finish(rid, frame), rid);
    FinishFrame(c, frame, Finishes(steps, rid), CancelledInFlight(steps, rid), Kept(steps, rid));
    FinishPlace(c, frame, PushFinal(rid) in steps, CancelLocks(rid) in steps, Takes(steps, rid));
  }

  lemma PushHistory(steps: seq<Step>, rid: nat, c: CallState)
    requires History(steps, rid, c) && c.worker == MustPush
    ensures History(steps + [PushFinal(rid)], rid, AfterPushFinal(c))
  {
    Appended(steps, PushFinal(rid), rid);
  }

  lemma CancelHistory(steps: seq<Step>, rid: nat, c: CallState)
    requires History(steps, rid, c)
    ensures History(steps + [CancelLocks(rid)], rid, AfterCancel(c))
  {
    Appended(steps, CancelLocks(rid), rid);
  }

  /** The first waiting frame moves to what was handed back. */
  lemma EventMoves(results: seq<Result>, events: seq<string>)
    requires events != []
    ensures InterimFrames(results + [Interim(events[0])]) + events[1..] == InterimFrames(results) + events
  {
    ResultsAppend(results, Interim(events[0]));
    assert events == [events[0]] + events[1..];
  }

  lemma EventFrame(c: CallState, finishes: seq<string>, inFlight: bool, kept: seq<string>)
    requires FramesMatch(c, finishes, inFlight, kept) && c.registered && c.call.events != []
    ensures FramesMatch(AfterTake(c), finishes, inFlight, kept)
  {
    EventMoves(c.results, c.call.events);
    ResultsAppend(c.results, Interim(c.call.events[0]));
  }

  lemma TakePlace(c: CallState, pushed: bool, cancels: bool, takes: nat)
    requires PlaceMatches(c, pushed, cancels, takes)
    ensures PlaceMatches(AfterTake(c), pushed, cancels, takes + 1)
  {}

  lemma TakeHistory(steps: seq<Step>, rid: nat, c: CallState)
    requires History(steps, rid, c)
    ensures History(steps + [TakeLocks(rid)], rid, AfterTake(c))
  {
    Appended(steps, TakeLocks(rid), rid);
    if c.registered && c.call.events != [] {
      EventFrame(c, Finishes(steps, rid), CancelledInFlight(steps, rid), Kept(steps, rid));
    }
    TakePlace(c, PushFinal(rid) in steps, CancelLocks(rid) in steps, Takes(steps, rid));
  }

  lemma ReadFrame(c: CallState, finishes: seq<string>, inFlight: bool, kept: seq<string>)
    requires FramesMatch(c, finishes, inFlight, kept) && c.readingOk > 0
    ensures FramesMatch(AfterRead(c), finishes, inFlight, kept)
  {
    ResultsAppend(c.results, Answer(c.call.frame));
  }

  lemma ReadPlace(c: CallState, pushed: bool, cancels: bool, takes: nat)
    requires PlaceMatches(c, pushed, cancels, takes) && c.readingOk > 0
    ensures PlaceMatches(AfterRead(c), pushed, cancels, takes)
  {}

  lemma ReadHistory(steps: seq<Step>, rid: nat, c: CallState)
    requires History(steps, rid, c) && c.readingOk > 0
    ensures History(steps + [TakeReadsDone(rid)], rid, AfterRead(c))
  {
    Appended(steps, TakeReadsDone(rid), rid);
    ReadFrame(c, Finishes(steps, rid), CancelledInFlight(steps, rid), Kept(steps, rid));
    ReadPlace(c, PushFinal(rid) in steps, CancelLocks(rid) in steps, Takes(steps, rid));
  }

  /** Steps that no call's history looks at, with the call they touch, if any. */
  predicate Quiet(step: Step) {
    && !(step.Start? || step.InterimArrives? || step.Finish? || step.PushFinal? || step.CancelLocks?)
    && !(step.TakeLocks? || step.TakeReadsDone?)
  }

  lemma QuietAlike(s: State, step: Step, disciplined: bool, rid: nat)
    requires Enabled(s, step, disciplined) && rid in s.calls && Quiet(step)
    ensures rid in Do(s, step, disciplined).calls && Alike(s.calls[rid], Do(s, step, disciplined).calls[rid])
  {}

  lemma QuietKeeps(steps: seq<Step>, s: State, step: Step, disciplined: bool, rid: nat)
    requires Enabled(s, step, disciplined) && rid in s.calls && History(steps, rid, s.calls[rid]) && Quiet(step)
    ensures rid in Do(s, step, disciplined).calls
    ensures History(steps + [step], rid, Do(s, step, disciplined).calls[rid])
  {
    QuietAlike(s, step, disciplined, rid);
    AlikeKeeps(steps, step, rid, s.calls[rid], Do(s, step, disciplined).calls[rid]);
  }

  lemma CallKeeps(steps: seq<Step>, s: State, step: Step, disciplined: bool, rid: nat)
    requires Enabled(s, step, disciplined) && !step.Start?
    requires rid in s.calls && History(steps, rid, s.calls[rid])
    ensures History(steps + [step], rid, Do(s, step, disciplined).calls[rid])
  {
    var c := s.calls[rid];
    match step
    case InterimArrives(r, frame) => if r == rid { InterimHistory(steps, rid, frame, c); }
                                     else { UnseenKeeps(steps, step, rid, c); }
    case Finish(r, frame) => if r == rid { FinishHistory(steps, rid, frame, c); }
                             else { UnseenKeeps(steps, step, rid, c); }
    case PushFinal(r) => if r == rid { PushHistory(steps, rid, c); } else { UnseenKeeps(steps, step, rid, c); }
    case CancelLocks(r) => if r == rid { CancelHistory(steps, rid, c); } else { UnseenKeeps(steps, step, rid, c); }
    case TakeLocks(r) => if r == rid { TakeHistory(steps, rid, c); } else { UnseenKeeps(steps, step, rid, c); }
    case TakeReadsDone(r) => if r == rid { ReadHistory(steps, rid, c); } else { UnseenKeeps(steps, step, rid, c); }
    case _ => QuietKeeps(steps, s, step, disciplined, rid);
  }

  lemma SameCalls(s: State, step: Step, disciplined: bool)
    requires Enabled(s, step, disciplined) && !step.Start?
    ensures Do(s, step, disciplined).calls.Keys == s.calls.Keys && Do(s, step, disciplined).nextRid == s.nextRid
  {}

  /** A call not started yet is not in the step. */
  lemma OthersUnseen(s: State, step: Step, disciplined: bool, rid: nat)
    requires Enabled(s, step, disciplined) && rid !in s.calls
    ensures Unseen(step, rid)
  {}

  /** The calls of a state, and the numbers no call has yet. */
  ghost predicate AllMatch(steps: seq<Step>, calls: Calls, nextRid: nat) {
    && (forall rid :: rid in calls ==> rid < nextRid && History(steps, rid, calls[rid]))
    && (forall rid: nat :: rid !in calls ==> History(steps, rid, NEW_STATE))
  }

  lemma NewKeeps(steps: seq<Step>, step: Step, calls: Calls, nextRid: nat)
    requires AllMatch(steps, calls, nextRid)
    requires forall rid: nat :: rid !in calls ==> Unseen(step, rid)
    ensures forall rid: nat :: rid !in calls ==> History(steps + [step], rid, NEW_STATE)
  {
    forall rid: nat | rid !in calls ensures History(steps + [step], rid, NEW_STATE) {
      UnseenKeeps(steps, step, rid, NEW_STATE);
    }
  }

  lemma StartKeeps(steps: seq<Step>, calls: Calls, nextRid: nat)
    requires AllMatch(steps, calls, nextRid)
    ensures AllMatch(steps + [Start], calls[nextRid := NEW_STATE], nextRid + 1)
  {
    NewKeeps(steps, Start, calls, nextRid);
    forall rid | rid in calls ensures History(steps + [Start], rid, calls[rid]) {
      UnseenKeeps(steps, Start, rid, calls[rid]);
    }
  }

  lemma OthersKeep(steps: seq<Step>, s: State, step: Step, disciplined: bool)
    requires AllMatch(steps, s.calls, s.nextRid) && Enabled(s, step, disciplined) && !step.Start?
    ensures AllMatch(steps + [step], Do(s, step, disciplined).calls, s.nextRid)
  {
    forall rid: nat | rid !in s.calls ensures Unseen(step, rid) {
      OthersUnseen(s, step, disciplined, rid);
    }
    NewKeeps(steps, step, s.calls, s.nextRid);
    SameCalls(s, step, disciplined);
    forall rid | rid in s.calls ensures History(steps + [step], rid, Do(s, step, disciplined).calls[rid]) {
      CallKeeps(steps, s, step, disciplined, rid);
    }
  }

  ghost predicate Histories(steps: seq<Step>, s: State) {
    AllMatch(steps, s.calls, s.nextRid)
  }

  lemma HistoriesKeep(steps: seq<Step>, s: State, step: Step, disciplined: bool)
    requires Histories(steps, s) && Enabled(s, step, disciplined)
    ensures Histories(steps + [step], Do(s, step, disciplined))
  {
    if step.Start? {
      StartKeeps(steps, s.calls, s.nextRid);
    } else {
      SameCalls(s, step, disciplined);
      OthersKeep(steps, s, step, disciplined);
    }
  }

  lemma InitialHistories()
    ensures Histories([], INITIAL)
  {}

  lemma HistoryOf(steps: seq<Step>, t: State, rid: nat, disciplined: bool)
    requires Reaches(INITIAL, steps, t, disciplined) && rid in t.calls
    ensures History(steps, rid, t.calls[rid])
  {
    InitialHistories();
    forall before, s, step | Histories(before, s) && Enabled(s, step, disciplined)
      ensures Histories(before + [step], Do(s, step, disciplined))
    {
      HistoriesKeep(before, s, step, disciplined);
    }
    EveryRun(Histories, [], INITIAL, steps, t, disciplined);
    assert [] + steps == steps;
  }

  // ---- What follows ----

  /** In every run, whoever takes whenever: an answer handed back is the frame of the call's one Finish; the
      interim frames handed back and those still waiting are the ones that came in flight, in order; and each
      take has been answered, turned away, or is about to read. */
  lemma FramesAreTheRuns(steps: seq<Step>, t: State, rid: nat, disciplined: bool)
    requires Reaches(INITIAL, steps, t, disciplined) && rid in t.calls
    ensures var c := t.calls[rid];
            && Finishes(steps, rid) == (if c.call.done then [c.call.frame] else [])
            && (forall f :: Answer(f) in c.results ==> Finishes(steps, rid) == [f])
            && InterimFrames(c.results) + c.call.events == Kept(steps, rid)
            && Takes(steps, rid) == |c.results| + c.misses + c.readingOk + c.readingGone
  {
    HistoryOf(steps, t, rid, disciplined);
  }

  /** What a disciplined caller has been handed: the first frames that came in flight, and after the last of
      them perhaps the frame of Finish. */
  ghost predicate HandedBack(steps: seq<Step>, rid: nat, results: seq<Result>, k: nat) {
    && k <= |Kept(steps, rid)|
    && (results == Interims(Kept(steps, rid)[..k])
        || (k == |Kept(steps, rid)| && |Finishes(steps, rid)| == 1
            && results == Interims(Kept(steps, rid)) + [Answer(Finishes(steps, rid)[0])]))
  }

  lemma DisciplinedHandsBack(steps: seq<Step>, t: State, rid: nat)
    requires Reaches(INITIAL, steps, t, true) && rid in t.calls
    ensures exists k :: HandedBack(steps, rid, t.calls[rid].results, k)
  {
    var c := t.calls[rid];
    HistoryOf(steps, t, rid, true);
    ReachableInv(t);
    OneCall(t.calls, t.queue, t.nextRid, rid);
    InOrderDelivered(c);
    assert HandedBack(steps, rid, c.results, |c.appended| - |c.call.events|);
  }

  /** No cancellation among the steps, the work ended and nothing under way: all the frames that came in flight
      have been handed back, and then the frame of Finish, each once. */
  lemma AllHandedBackAtRest(steps: seq<Step>, t: State, rid: nat)
    requires Reaches(INITIAL, steps, t, true) && rid in t.calls
    requires CancelLocks(rid) !in steps && Finishes(steps, rid) != []
    requires Tokens(t.calls[rid], Count(t.queue, rid)) == 0 && t.calls[rid].readingOk == 0
    ensures |Finishes(steps, rid)| == 1
    ensures t.calls[rid].results == Interims(Kept(steps, rid)) + [Answer(Finishes(steps, rid)[0])]
  {
    HistoryOf(steps, t, rid, true);
    AllDeliveredAtRest(t, rid);
  }

  // ---- The queue ----

  /** The numbers pushed, in order. */
  function Pushed(steps: seq<Step>): seq<nat> {
    if steps == [] then []
    else
      var before, last := Pushed(steps[..|steps| - 1]), steps[|steps| - 1];
      if last.PushInterim? || last.PushFinal? then before + [last.rid] else before
  }

  function Waits(steps: seq<Step>): nat {
    if steps == [] then 0 else Waits(steps[..|steps| - 1]) + One(steps[|steps| - 1].Wait?)
  }

  ghost predicate QueueMatches(steps: seq<Step>, s: State) {
    Waits(steps) <= |Pushed(steps)| && s.queue == Pushed(steps)[Waits(steps)..] && |s.queue| <= CAPACITY
  }

  lemma QueueKeeps(steps: seq<Step>, s: State, step: Step, disciplined: bool)
    requires QueueMatches(steps, s) && Enabled(s, step, disciplined)
    ensures QueueMatches(steps + [step], Do(s, step, disciplined))
  {
    assert (steps + [step])[..|steps|] == steps;
  }

  /** Waits return the numbers in the order they were pushed, and no push finds the channel full. */
  lemma WaitsInOrder(steps: seq<Step>, t: State, disciplined: bool)
    requires Reaches(INITIAL, steps, t, disciplined)
    ensures Waits(steps) <= |Pushed(steps)| && t.queue == Pushed(steps)[Waits(steps)..] && |t.queue| <= CAPACITY
  {
    forall before, s, step | QueueMatches(before, s) && Enabled(s, step, disciplined)
      ensures QueueMatches(before + [step], Do(s, step, disciplined))
    {
      QueueKeeps(before, s, step, disciplined);
    }
    EveryRun(QueueMatches, [], INITIAL, steps, t, disciplined);
    assert [] + steps == steps;
  }

  // ---- Cancellations ----

  /** A call cancelled in flight and then finished is owed a discard by its worker, or has had it. */
  ghost predicate DroppedIsDiscarded(c: CallState) {
    c.call.done && c.call.dropped ==> One(c.worker == MustDiscard) + c.discarded == 1
  }

  lemma LocalDrops(c: CallState, queued: nat, step: Step)
    requires IsLocal(step) && MayStep(c, step) && CallInv(c, queued) && DroppedIsDiscarded(c)
    ensures DroppedIsDiscarded(Stepped(c, step))
  {}

  /** What the other steps make of a call. */
  predicate DropsAlike(c: CallState, d: CallState) {
    && d.call == c.call && d.discarded == c.discarded
    && (d.worker == MustDiscard <==> c.worker == MustDiscard)
  }

  lemma OtherDrops(s: State, step: Step, rid: nat)
    requires Enabled(s, step, true) && rid in s.calls
    requires !IsLocal(step) && !step.Start? && !step.WorkerDiscards? && !step.CancelDiscards?
    ensures rid in Do(s, step, true).calls && DropsAlike(s.calls[rid], Do(s, step, true).calls[rid])
  {}

  lemma DiscardDrops(c: CallState, queued: nat, d: CallState)
    requires CallInv(c, queued) && Discards(c, d) && DroppedIsDiscarded(c)
    ensures DroppedIsDiscarded(d)
  {}

  lemma DiscardDo(s: State, step: Step, rid: nat)
    requires Enabled(s, step, true) && rid in s.calls && (step.WorkerDiscards? || step.CancelDiscards?)
    ensures rid in Do(s, step, true).calls
    ensures var c, d := s.calls[rid], Do(s, step, true).calls[rid]; d == c || Discards(c, d)
  {}

  lemma CallDrops(s: State, step: Step, rid: nat)
    requires Inv(s) && Enabled(s, step, true) && rid in s.calls && DroppedIsDiscarded(s.calls[rid])
    ensures rid in Do(s, step, true).calls && DroppedIsDiscarded(Do(s, step, true).calls[rid])
  {
    var c, queued := s.calls[rid], Count(s.queue, rid);
    OneCall(s.calls, s.queue, s.nextRid, rid);
    if IsLocal(step) {
      LocalDo(s, step);
      if step.rid == rid {
        LocalDrops(c, queued, step);
      }
    } else if step.Start? {
      assert s.nextRid != rid;
    } else if step.WorkerDiscards? || step.CancelDiscards? {
      DiscardDo(s, step, rid);
      var d := Do(s, step, true).calls[rid];
      if d != c {
        DiscardDrops(c, queued, d);
      }
    } else {
      OtherDrops(s, step, rid);
    }
  }

  ghost predicate Dropping(steps: seq<Step>, s: State) {
    Inv(s) && forall rid :: rid in s.calls ==> DroppedIsDiscarded(s.calls[rid])
  }

  lemma DroppingKeeps(steps: seq<Step>, s: State, step: Step)
    requires Dropping(steps, s) && Enabled(s, step, true)
    ensures Dropping(steps + [step], Do(s, step, true))
  {
    StepKeeps(s, step);
    var t := Do(s, step, true);
    forall rid | rid in t.calls ensures DroppedIsDiscarded(t.calls[rid]) {
      if rid in s.calls {
        CallDrops(s, step, rid);
      }
    }
  }

  lemma RunDrops(steps: seq<Step>, t: State)
    requires Reaches(INITIAL, steps, t, true)
    ensures Dropping(steps, t)
  {
    InitialInv();
    forall before, s, step | Dropping(before, s) && Enabled(s, step, true)
      ensures Dropping(before + [step], Do(s, step, true))
    {
      DroppingKeeps(before, s, step);
    }
    EveryRun(Dropping, [], INITIAL, steps, t, true);
    assert [] + steps == steps;
  }

  /** A call cancelled in flight is never announced or answered: when its work ends, it is discarded, once. */
  lemma CancelledInFlightIsDiscarded(steps: seq<Step>, t: State, rid: nat)
    requires Reaches(INITIAL, steps, t, true) && rid in t.calls && CancelledInFlight(steps, rid)
    ensures var c := t.calls[rid];
            && PushFinal(rid) !in steps && c.worker != MustPush
            && (forall f :: Answer(f) !in c.results)
            && (Finishes(steps, rid) != [] ==>
                  !c.registered && One(c.worker == MustDiscard) + c.discarded == 1)
  {
    var c := t.calls[rid];
    HistoryOf(steps, t, rid, true);
    RunDrops(steps, t);
    OneCall(t.calls, t.queue, t.nextRid, rid);
    forall f | Answer(f) in c.results ensures Answers(c.results) > 0 {
      AnswersPositive(c.results, f);
    }
  }

  lemma {:induction false} AnswersPositive(results: seq<Result>, f: string)
    requires Answer(f) in results
    ensures Answers(results) > 0
  {
    var last := results[|results| - 1];
    if !last.Answer? {
      AnswersPositive(results[..|results| - 1], f);
    }
  }

  /** A cancellation takes every finished call out of the registry, and nothing is lost by it: the call was
      answered or is being, or a discard of it ran or is owed. */
  lemma CancelledIsGone(steps: seq<Step>, t: State, rid: nat)
    requires Reaches(INITIAL, steps, t, true) && rid in t.calls
    requires CancelLocks(rid) in steps && Finishes(steps, rid) != []
    ensures var c := t.calls[rid];
            !c.registered && c.readingOk + Answers(c.results) + Owed(c) + c.discarded == 1
  {
    HistoryOf(steps, t, rid, true);
    ReachableInv(t);
    EachCallEndsOnce(t, rid);
    OneCall(t.calls, t.queue, t.nextRid, rid);
  }
}
