/** Every interleaving of asynchronous calls: work and transport goroutines, queue, waits,
    takes, cancellations, discards and the handles the work opens. One step is one critical
    section, one channel operation, or one unlocked read. */
module AsyncRuns {
  import opened Basics
  import opened AsyncCalls

  /** The ready channel's buffer. */
  const CAPACITY := 1024

  /** Where the goroutine that does the work stands. Registered: its handle is in its registry
      but not yet stored for discard to find. */
  datatype Worker = Working | Registered(handle: nat) | Stored | MustPush | MustDiscard | Ended

  /** What a take hands back. */
  datatype Result = Interim(frame: string) | Answer(frame: string)

  /** One call: its record, its threads, and what has happened to it. */
  datatype CallState = CallState(
    call: Call,
    registered: bool,       // in the pending map
    worker: Worker,
    toClose: nat,            // the handle discard would close, 0 for none
    pushing: nat,           // interim goroutines that have not pushed yet
    announced: nat,         // numbers returned by a wait and not yet used for a take
    readingOk: nat,         // takes past the lock with the call in hand, about to read done
    readingGone: nat,       // takes past the lock that found no call
    cancelling: nat,        // cancellations past the lock that owe a discard
    appended: seq<string>,  // history: interim frames in the order they were kept
    results: seq<Result>,   // history: frames handed back
    misses: nat,            // history: takes answered "not found" or "not finished yet"
    discarded: nat,         // history: discards that ran
    cancelled: bool)        // history: a cancellation found the call registered

  datatype State = State(
    calls: map<nat, CallState>,
    queue: seq<nat>,
    nextRid: nat,
    handles: map<nat, nat>,  // open stream, socket or connection -> the call that opened it
    nextHandle: nat)

  const INITIAL := State(map[], [], 1, map[], 1)

  const NEW_STATE := CallState(NEW_CALL, true, Working, 0, 0, 0, 0, 0, 0, [], [], 0, 0, false)

  datatype Step =
    | Start
    | InterimArrives(rid: nat, frame: string)
    | PushInterim(rid: nat)
    | Open(rid: nat)
    | Store(rid: nat)
    | Finish(rid: nat, frame: string)
    | PushFinal(rid: nat)
    | WorkerDiscards(rid: nat)
    | Wait
    | TakeLocks(rid: nat)
    | TakeReadsDone(rid: nat)
    | TakeReadsGone(rid: nat)
    | CancelLocks(rid: nat)
    | CancelDiscards(rid: nat)
    | CloseHandle(handle: nat)

  /** A step some thread can take. A disciplined caller takes once per number a wait returned. */
  predicate Enabled(s: State, step: Step, disciplined: bool) {
    match step
    case Start => true
    case InterimArrives(rid, _) => rid in s.calls
    case PushInterim(rid) => rid in s.calls && s.calls[rid].pushing > 0 && |s.queue| < CAPACITY
    case Open(rid) => rid in s.calls && s.calls[rid].worker == Working
    case Store(rid) => rid in s.calls && s.calls[rid].worker.Registered?
    case Finish(rid, _) => rid in s.calls && s.calls[rid].worker in {Working, Stored}
    case PushFinal(rid) => rid in s.calls && s.calls[rid].worker == MustPush && |s.queue| < CAPACITY
    case WorkerDiscards(rid) => rid in s.calls && s.calls[rid].worker == MustDiscard
    case Wait => s.queue != []
    case TakeLocks(rid) => rid in s.calls && (disciplined ==> s.calls[rid].announced > 0)
    case TakeReadsDone(rid) => rid in s.calls && s.calls[rid].readingOk > 0
    case TakeReadsGone(rid) => rid in s.calls && s.calls[rid].readingGone > 0
    case CancelLocks(rid) => rid in s.calls
    case CancelDiscards(rid) => rid in s.calls && s.calls[rid].cancelling > 0
    case CloseHandle(h) => h in s.handles
  }

  function Set(s: State, rid: nat, c: CallState): State {
    s.(calls := s.calls[rid := c])
  }

  /** discard closes the stored handle, if there is one. */
  function Discard(s: State, rid: nat, c: CallState): State {
    Set(s, rid, c).(handles := s.handles - {c.toClose})
  }

  function Announced(c: CallState): CallState {
    c.(announced := c.announced + 1)
  }

  function AfterInterim(c: CallState, frame: string): CallState {
    if c.registered && Wanted(c.call) then
      c.(call := WithEvent(c.call, frame), appended := c.appended + [frame], pushing := c.pushing + 1)
    else c
  }

  function AfterPushInterim(c: CallState): CallState
    requires c.pushing > 0
  {
    c.(pushing := c.pushing - 1)
  }

  function AfterPushFinal(c: CallState): CallState {
    c.(worker := Ended)
  }

  function AfterOpen(c: CallState, h: nat): CallState {
    c.(worker := Registered(h))
  }

  function AfterStore(c: CallState): CallState
    requires c.worker.Registered?
  {
    c.(toClose := c.worker.handle, worker := Stored)
  }

  /** The unlocked read of done, and what the take returns by it. */
  function AfterRead(c: CallState): CallState
    requires c.readingOk > 0
  {
    var d := c.(readingOk := c.readingOk - 1);
    if c.call.done then d.(results := d.results + [Answer(d.call.frame)]) else d.(misses := d.misses + 1)
  }

  function AfterMiss(c: CallState): CallState
    requires c.readingGone > 0
  {
    c.(readingGone := c.readingGone - 1, misses := c.misses + 1)
  }

  function AfterWorkerDiscard(c: CallState): CallState {
    c.(worker := Ended, discarded := c.discarded + 1)
  }

  function AfterCancelDiscard(c: CallState): CallState
    requires c.cancelling > 0
  {
    c.(cancelling := c.cancelling - 1, discarded := c.discarded + 1)
  }

  function AfterFinish(c: CallState, frame: string): CallState {
    var d := c.(call := AsyncCalls.Finished(c.call, frame));
    if c.call.dropped then d.(registered := false, worker := MustDiscard) else d.(worker := MustPush)
  }

  function AfterCancel(c: CallState): CallState {
    if !c.registered then c
    else if !c.call.done then c.(call := Dropped(c.call), cancelled := true)
    else c.(registered := false, cancelling := c.cancelling + 1, cancelled := true)
  }

  /** A take's critical section; an undisciplined one may have no announcement to use up. */
  function AfterTake(c: CallState): CallState {
    var d := c.(announced := if c.announced > 0 then c.announced - 1 else 0);
    if !c.registered then d.(readingGone := d.readingGone + 1)
    else
      match Take(c.call)
      case Event(frame, rest) => d.(call := rest, results := d.results + [Interim(frame)])
      case Final => d.(registered := false, readingOk := d.readingOk + 1)
      case NotYet => d.(readingOk := d.readingOk + 1)
  }

  function Do(s: State, step: Step, disciplined: bool): State
    requires Enabled(s, step, disciplined)
  {
    match step
    case Start => Set(s, s.nextRid, NEW_STATE).(nextRid := s.nextRid + 1)
    case InterimArrives(rid, frame) => Set(s, rid, AfterInterim(s.calls[rid], frame))
    case PushInterim(rid) => Set(s, rid, AfterPushInterim(s.calls[rid])).(queue := s.queue + [rid])
    case Open(rid) =>
      Set(s, rid, AfterOpen(s.calls[rid], s.nextHandle))
        .(handles := s.handles[s.nextHandle := rid], nextHandle := s.nextHandle + 1)
    case Store(rid) => Set(s, rid, AfterStore(s.calls[rid]))
    case Finish(rid, frame) => Set(s, rid, AfterFinish(s.calls[rid], frame))
    case PushFinal(rid) => Set(s, rid, AfterPushFinal(s.calls[rid])).(queue := s.queue + [rid])
    case WorkerDiscards(rid) => Discard(s, rid, AfterWorkerDiscard(s.calls[rid]))
    case Wait =>
      var rid := s.queue[0];
      if rid in s.calls then Set(s, rid, Announced(s.calls[rid])).(queue := s.queue[1..])
      else s.(queue := s.queue[1..])
    case TakeLocks(rid) => Set(s, rid, AfterTake(s.calls[rid]))
    case TakeReadsDone(rid) => Set(s, rid, AfterRead(s.calls[rid]))
    case TakeReadsGone(rid) => Set(s, rid, AfterMiss(s.calls[rid]))
    case CancelLocks(rid) => Set(s, rid, AfterCancel(s.calls[rid]))
    case CancelDiscards(rid) => Discard(s, rid, AfterCancelDiscard(s.calls[rid]))
    case CloseHandle(h) => s.(handles := s.handles - {h})
  }

  /** The states a run of these steps can end in. */
  ghost predicate Reaches(s: State, steps: seq<Step>, t: State, disciplined: bool)
    decreases |steps|
  {
    if steps == [] then s == t
    else Enabled(s, steps[0], disciplined) && Reaches(Do(s, steps[0], disciplined), steps[1..], t, disciplined)
  }

  ghost predicate Reachable(t: State) {
    exists steps :: Reaches(INITIAL, steps, t, true)
  }

  // ---- The invariant of a disciplined run ----

  function Count(queue: seq<nat>, rid: nat): nat {
    multiset(queue)[rid]
  }

  function One(b: bool): nat {
    if b then 1 else 0
  }

  /** Announcements of a call on their way to a take: not yet pushed, queued, or returned by a wait. */
  function Tokens(c: CallState, queued: nat): nat {
    c.pushing + queued + c.announced + One(c.worker == MustPush)
  }

  function Interims(frames: seq<string>): (r: seq<Result>)
    ensures |r| == |frames| && forall i :: 0 <= i < |r| ==> r[i] == Interim(frames[i])
  {
    seq(|frames|, i requires 0 <= i < |frames| => Interim(frames[i]))
  }

  /** Times the final frame was handed back. */
  function Answers(results: seq<Result>): nat {
    if results == [] then 0
    else One(results[|results| - 1].Answer?) + Answers(results[..|results| - 1])
  }

  function Owed(c: CallState): nat {
    c.cancelling + One(c.worker == MustDiscard)
  }

  /** As many announcements as results still to come; none for a call taken to its end. */
  ghost predicate TokensMatch(c: CallState, queued: nat) {
    && (c.registered ==> Tokens(c, queued) == |c.call.events| + One(c.call.done))
    && (!c.cancelled && !c.registered ==> Tokens(c, queued) == 0 && c.readingGone == 0)
    && (!c.cancelled ==> c.misses == 0 && c.readingGone == 0)
  }

  /** The interim frames handed back are those kept, from the first on; the final one is last. */
  ghost predicate InOrder(c: CallState) {
    && |c.call.events| <= |c.appended|
    && c.call.events == c.appended[|c.appended| - |c.call.events|..]
    && c.results == Interims(c.appended[..|c.appended| - |c.call.events|])
                    + (if Answers(c.results) > 0 then [Answer(c.call.frame)] else [])
  }

  /** A finished call is registered, being handed back, handed back, owed a discard, or discarded:
      one of these, once. */
  ghost predicate Conserved(c: CallState) {
    && (c.registered ==> c.call.done ==> !c.call.dropped)
    && (!c.call.done ==>
          c.registered && c.readingOk == 0 && Answers(c.results) == 0 && Owed(c) == 0 && c.discarded == 0)
    && (c.call.done ==>
         One(c.registered) + c.readingOk + Answers(c.results) + Owed(c) + c.discarded == 1)
    && (c.readingOk + Answers(c.results) > 0 ==> c.call.events == [])
    && (!c.call.done <==> c.worker in {Working, Stored} || c.worker.Registered?)
    && (c.call.dropped ==> c.cancelled)
    && (Owed(c) + c.discarded > 0 ==> c.cancelled)
  }

  ghost predicate CallInv(c: CallState, queued: nat) {
    TokensMatch(c, queued) && InOrder(c) && Conserved(c)
  }

  type Calls = map<nat, CallState>

  ghost predicate EachCall(calls: Calls, queue: seq<nat>, nextRid: nat, good: (CallState, nat) -> bool) {
    && (forall rid :: rid in calls ==> rid < nextRid && good(calls[rid], Count(queue, rid)))
    && (forall rid :: rid in queue ==> rid in calls)
  }

  ghost predicate CallsInv(calls: Calls, queue: seq<nat>, nextRid: nat) {
    EachCall(calls, queue, nextRid, CallInv)
  }

  /** An open handle is the one its call registered, and nobody has discarded that call. */
  ghost predicate Owns(c: CallState, h: nat) {
    (c.worker == Registered(h) || c.toClose == h) && c.discarded == 0
  }

  /** Nothing is stored for discard before the handle is in its registry. */
  ghost predicate Opening(c: CallState) {
    c.worker == Working || c.worker.Registered? ==> c.toClose == 0
  }

  ghost predicate HandlesInv(calls: Calls, handles: map<nat, nat>, nextHandle: nat) {
    && nextHandle > 0
    && (forall h :: h in handles ==> 0 < h < nextHandle && handles[h] in calls && Owns(calls[handles[h]], h))
    && (forall rid :: rid in calls ==> Opening(calls[rid]))
  }

  ghost predicate Inv(s: State) {
    CallsInv(s.calls, s.queue, s.nextRid) && HandlesInv(s.calls, s.handles, s.nextHandle)
  }

  // ---- Each step keeps it ----

  lemma CountAppend(queue: seq<nat>, r: nat, rid: nat)
    ensures Count(queue + [r], rid) == Count(queue, rid) + One(r == rid)
  {}

  lemma CountTail(queue: seq<nat>, rid: nat)
    requires queue != []
    ensures Count(queue[1..], rid) == Count(queue, rid) - One(queue[0] == rid)
  {
    assert queue == [queue[0]] + queue[1..];
  }

  lemma AnswersAppend(results: seq<Result>, r: Result)
    ensures Answers(results + [r]) == Answers(results) + One(r.Answer?)
  {
    assert (results + [r])[..|results|] == results;
  }

  lemma InterimKeeps(c: CallState, queued: nat, frame: string)
    requires CallInv(c, queued)
    ensures CallInv(AfterInterim(c, frame), queued)
  {
    var d := c.(call := c.call.(events := c.call.events + [frame]), appended := c.appended + [frame]);
    var k := |c.appended| - |c.call.events|;
    assert d.appended[k..] == c.appended[k..] + [frame];
    assert d.appended[..k] == c.appended[..k];
  }

  lemma NextInterim(c: CallState, r: CallState)
    requires InOrder(c) && Answers(c.results) == 0 && c.call.events != []
    requires r.appended == c.appended && r.call.events == c.call.events[1..]
    requires r.results == c.results + [Interim(c.call.events[0])]
    ensures InOrder(r) && Answers(r.results) == 0
  {
    var k := |c.appended| - |c.call.events|;
    var frame := c.call.events[0];
    AnswersAppend(c.results, Interim(frame));
    assert c.appended[k] == frame;
    assert c.call.events[1..] == c.appended[k + 1..];
    assert Interims(c.appended[..k + 1]) == Interims(c.appended[..k]) + [Interim(frame)];
  }

  lemma TakeEventKeeps(c: CallState, queued: nat)
    requires CallInv(c, queued) && c.announced > 0 && c.registered && c.call.events != []
    ensures CallInv(AfterTake(c), queued)
  {
    NextInterim(c, AfterTake(c));
  }

  lemma TakeFinalKeeps(c: CallState, queued: nat)
    requires CallInv(c, queued) && c.announced > 0 && c.registered && c.call.events == []
    ensures Take(c.call).Final? && CallInv(AfterTake(c), queued)
  {}

  lemma TakeGoneKeeps(c: CallState, queued: nat)
    requires CallInv(c, queued) && c.announced > 0 && !c.registered
    ensures CallInv(AfterTake(c), queued)
  {}

  /** A disciplined take of a registered call always has something to give: NotYet cannot happen. */
  lemma TakeKeeps(c: CallState, queued: nat)
    requires CallInv(c, queued) && c.announced > 0
    ensures c.registered ==> !Take(c.call).NotYet?
    ensures CallInv(AfterTake(c), queued)
  {
    if c.registered && c.call.events != [] {
      TakeEventKeeps(c, queued);
    } else if c.registered {
      TakeFinalKeeps(c, queued);
    } else {
      TakeGoneKeeps(c, queued);
    }
  }

  /** The read of done after the lock: the call in hand is finished, so its frame goes out. */
  lemma ReadKeeps(c: CallState, queued: nat)
    requires CallInv(c, queued) && c.readingOk > 0
    ensures c.call.done
    ensures CallInv(AfterRead(c), queued)
  {
    AnswersAppend(c.results, Answer(c.call.frame));
  }

  lemma OneCall(calls: Calls, queue: seq<nat>, nextRid: nat, rid: nat)
    requires CallsInv(calls, queue, nextRid) && rid in calls
    ensures CallInv(calls[rid], Count(queue, rid))
  {}

  /** Replacing one call's record, and what its queue entries were changed to, keeps the rest. */
  lemma ReplaceKeeps(calls: Calls, queue: seq<nat>, nextRid: nat, rid: nat, c: CallState, queue': seq<nat>,
                     good: (CallState, nat) -> bool)
    requires EachCall(calls, queue, nextRid, good) && rid in calls && good(c, Count(queue', rid))
    requires forall r :: r != rid ==> Count(queue', r) == Count(queue, r)
    requires forall r :: r in queue' ==> r == rid || r in queue
    ensures EachCall(calls[rid := c], queue', nextRid, good)
  {}

  lemma UpdateKeeps(calls: Calls, queue: seq<nat>, nextRid: nat, rid: nat, c: CallState)
    requires CallsInv(calls, queue, nextRid) && rid in calls && CallInv(c, Count(queue, rid))
    ensures CallsInv(calls[rid := c], queue, nextRid)
  {
    ReplaceKeeps(calls, queue, nextRid, rid, c, queue, CallInv);
  }

  lemma PushKeeps(calls: Calls, queue: seq<nat>, nextRid: nat, rid: nat, c: CallState)
    requires CallsInv(calls, queue, nextRid) && rid in calls
    requires CallInv(c, Count(queue, rid) + 1)
    ensures CallsInv(calls[rid := c], queue + [rid], nextRid)
  {
    forall r ensures Count(queue + [rid], r) == Count(queue, r) + One(rid == r) {
      CountAppend(queue, rid, r);
    }
    ReplaceKeeps(calls, queue, nextRid, rid, c, queue + [rid], CallInv);
  }

  lemma AnnounceKeeps(c: CallState, queued: nat)
    requires CallInv(c, queued) && queued > 0
    ensures CallInv(Announced(c), queued - 1)
  {}

  lemma PopKeeps(calls: Calls, queue: seq<nat>, nextRid: nat)
    requires CallsInv(calls, queue, nextRid) && queue != []
    ensures queue[0] in calls
    ensures var rid := queue[0];
            CallsInv(calls[rid := Announced(calls[rid])], queue[1..], nextRid)
  {
    var rid := queue[0];
    assert rid in queue;
    OneCall(calls, queue, nextRid, rid);
    forall r ensures Count(queue[1..], r) == Count(queue, r) - One(rid == r) {
      CountTail(queue, r);
    }
    AnnounceKeeps(calls[rid], Count(queue, rid));
    ReplaceKeeps(calls, queue, nextRid, rid, Announced(calls[rid]), queue[1..], CallInv);
  }

  lemma NotQueued(calls: Calls, queue: seq<nat>, nextRid: nat, good: (CallState, nat) -> bool)
    requires EachCall(calls, queue, nextRid, good)
    ensures Count(queue, nextRid) == 0
  {
    assert nextRid !in queue;
  }

  lemma NewInv()
    ensures CallInv(NEW_STATE, 0)
  {}

  lemma AddKeeps(calls: Calls, queue: seq<nat>, nextRid: nat, c: CallState, good: (CallState, nat) -> bool)
    requires EachCall(calls, queue, nextRid, good) && good(c, Count(queue, nextRid))
    ensures EachCall(calls[nextRid := c], queue, nextRid + 1, good)
  {}

  lemma StartKeeps(calls: Calls, queue: seq<nat>, nextRid: nat)
    requires CallsInv(calls, queue, nextRid)
    ensures CallsInv(calls[nextRid := NEW_STATE], queue, nextRid + 1)
  {
    NotQueued(calls, queue, nextRid, CallInv);
    NewInv();
    AddKeeps(calls, queue, nextRid, NEW_STATE, CallInv);
  }

  predicate SameHandle(d: CallState, c: CallState) {
    && c.toClose == d.toClose && c.discarded == d.discarded
    && (c.worker == d.worker || (!c.worker.Registered? && !d.worker.Registered? && c.worker != Working))
  }

  /** A call that keeps its worker, or moves between places where it holds no unstored handle. */
  lemma HandlesKeep(calls: Calls, handles: map<nat, nat>, next: nat, rid: nat, c: CallState)
    requires HandlesInv(calls, handles, next) && rid in calls
    requires SameHandle(calls[rid], c)
    ensures HandlesInv(calls[rid := c], handles, next)
  {}

  lemma OpenKeeps(calls: Calls, handles: map<nat, nat>, next: nat, rid: nat)
    requires HandlesInv(calls, handles, next) && rid in calls
    requires calls[rid].worker == Working && calls[rid].discarded == 0
    ensures HandlesInv(calls[rid := AfterOpen(calls[rid], next)], handles[next := rid], next + 1)
  {}

  lemma StoreKeeps(calls: Calls, handles: map<nat, nat>, next: nat, rid: nat)
    requires HandlesInv(calls, handles, next) && rid in calls && calls[rid].worker.Registered?
    ensures HandlesInv(calls[rid := AfterStore(calls[rid])], handles, next)
  {}

  /** A discard leaves no handle of its call open. */
  lemma DiscardKeeps(calls: Calls, handles: map<nat, nat>, next: nat, rid: nat, c: CallState)
    requires HandlesInv(calls, handles, next) && rid in calls
    requires c.toClose == calls[rid].toClose
    requires c.worker != Working && !c.worker.Registered? && !calls[rid].worker.Registered?
    ensures HandlesInv(calls[rid := c], handles - {c.toClose}, next)
    ensures forall h :: h in handles - {c.toClose} ==> handles[h] != rid
  {}

  lemma LocalKeeps(s: State, rid: nat, c: CallState)
    requires Inv(s) && rid in s.calls && CallInv(c, Count(s.queue, rid))
    requires SameHandle(s.calls[rid], c)
    ensures Inv(Set(s, rid, c))
  {
    UpdateKeeps(s.calls, s.queue, s.nextRid, rid, c);
    HandlesKeep(s.calls, s.handles, s.nextHandle, rid, c);
  }

  /** Steps that change one call and nothing else. */
  predicate IsLocal(step: Step) {
    || step.TakeLocks? || step.TakeReadsDone? || step.TakeReadsGone?
    || step.InterimArrives? || step.Finish? || step.CancelLocks?
  }

  predicate MayStep(c: CallState, step: Step)
    requires IsLocal(step)
  {
    match step
    case TakeLocks(_) => c.announced > 0
    case TakeReadsDone(_) => c.readingOk > 0
    case TakeReadsGone(_) => c.readingGone > 0
    case Finish(_, _) => c.worker in {Working, Stored}
    case _ => true
  }

  function Stepped(c: CallState, step: Step): CallState
    requires IsLocal(step) && MayStep(c, step)
  {
    match step
    case TakeLocks(_) => AfterTake(c)
    case TakeReadsDone(_) => AfterRead(c)
    case TakeReadsGone(_) => AfterMiss(c)
    case InterimArrives(_, frame) => AfterInterim(c, frame)
    case Finish(_, frame) => AfterFinish(c, frame)
    case CancelLocks(_) => AfterCancel(c)
  }

  lemma FinishKeeps(c: CallState, queued: nat, frame: string)
    requires CallInv(c, queued) && MayStep(c, Finish(0, frame))
    ensures CallInv(AfterFinish(c, frame), queued)
  {}

  lemma CancelKeeps(c: CallState, queued: nat)
    requires CallInv(c, queued)
    ensures CallInv(AfterCancel(c), queued)
  {}

  lemma SteppedKeeps(c: CallState, queued: nat, step: Step)
    requires IsLocal(step) && MayStep(c, step) && CallInv(c, queued)
    ensures CallInv(Stepped(c, step), queued)
  {
    match step
    case TakeLocks(_) => TakeKeeps(c, queued);
    case TakeReadsDone(_) => ReadKeeps(c, queued);
    case TakeReadsGone(_) =>
    case InterimArrives(_, frame) => InterimKeeps(c, queued, frame);
    case Finish(_, frame) => FinishKeeps(c, queued, frame);
    case CancelLocks(_) => CancelKeeps(c, queued);
  }

  lemma SteppedSameHandle(c: CallState, step: Step)
    requires IsLocal(step) && MayStep(c, step)
    ensures SameHandle(c, Stepped(c, step))
  {}

  lemma LocalSteps(s: State, step: Step, rid: nat, c: CallState)
    requires Inv(s) && IsLocal(step) && rid in s.calls && MayStep(s.calls[rid], step)
    requires c == Stepped(s.calls[rid], step)
    ensures Inv(Set(s, rid, c))
  {
    OneCall(s.calls, s.queue, s.nextRid, rid);
    SteppedKeeps(s.calls[rid], Count(s.queue, rid), step);
    SteppedSameHandle(s.calls[rid], step);
    LocalKeeps(s, rid, c);
  }

  lemma LocalDo(s: State, step: Step)
    requires Enabled(s, step, true) && IsLocal(step)
    ensures step.rid in s.calls && MayStep(s.calls[step.rid], step)
    ensures Do(s, step, true) == Set(s, step.rid, Stepped(s.calls[step.rid], step))
  {}

  lemma WaitSteps(s: State)
    requires Inv(s) && s.queue != []
    ensures var rid := s.queue[0];
            rid in s.calls && Inv(Set(s, rid, Announced(s.calls[rid])).(queue := s.queue[1..]))
  {
    PopKeeps(s.calls, s.queue, s.nextRid);
    var rid := s.queue[0];
    HandlesKeep(s.calls, s.handles, s.nextHandle, rid, Announced(s.calls[rid]));
  }

  lemma PushFinalKeeps(c: CallState, queued: nat)
    requires CallInv(c, queued) && c.worker == MustPush
    ensures CallInv(AfterPushFinal(c), queued + 1)
  {}

  lemma PushInterimKeeps(c: CallState, queued: nat)
    requires CallInv(c, queued) && c.pushing > 0
    ensures CallInv(AfterPushInterim(c), queued + 1)
  {}

  lemma PushFinalSteps(s: State, rid: nat)
    requires Inv(s) && rid in s.calls && s.calls[rid].worker == MustPush
    ensures Inv(Set(s, rid, AfterPushFinal(s.calls[rid])).(queue := s.queue + [rid]))
  {
    OneCall(s.calls, s.queue, s.nextRid, rid);
    PushFinalKeeps(s.calls[rid], Count(s.queue, rid));
    PushKeeps(s.calls, s.queue, s.nextRid, rid, AfterPushFinal(s.calls[rid]));
    HandlesKeep(s.calls, s.handles, s.nextHandle, rid, AfterPushFinal(s.calls[rid]));
  }

  lemma PushInterimSteps(s: State, rid: nat)
    requires Inv(s) && rid in s.calls && s.calls[rid].pushing > 0
    ensures Inv(Set(s, rid, AfterPushInterim(s.calls[rid])).(queue := s.queue + [rid]))
  {
    OneCall(s.calls, s.queue, s.nextRid, rid);
    PushInterimKeeps(s.calls[rid], Count(s.queue, rid));
    PushKeeps(s.calls, s.queue, s.nextRid, rid, AfterPushInterim(s.calls[rid]));
    HandlesKeep(s.calls, s.handles, s.nextHandle, rid, AfterPushInterim(s.calls[rid]));
  }

  lemma OpenedKeeps(c: CallState, queued: nat, h: nat)
    requires CallInv(c, queued) && c.worker == Working
    ensures CallInv(AfterOpen(c, h), queued) && c.discarded == 0
  {}

  lemma StoredKeeps(c: CallState, queued: nat)
    requires CallInv(c, queued) && c.worker.Registered?
    ensures CallInv(AfterStore(c), queued)
  {}

  lemma OpenSteps(s: State, rid: nat)
    requires Inv(s) && rid in s.calls && s.calls[rid].worker == Working
    ensures var h := s.nextHandle;
            Inv(Set(s, rid, AfterOpen(s.calls[rid], h)).(handles := s.handles[h := rid], nextHandle := h + 1))
  {
    OneCall(s.calls, s.queue, s.nextRid, rid);
    OpenedKeeps(s.calls[rid], Count(s.queue, rid), s.nextHandle);
    UpdateKeeps(s.calls, s.queue, s.nextRid, rid, AfterOpen(s.calls[rid], s.nextHandle));
    OpenKeeps(s.calls, s.handles, s.nextHandle, rid);
  }

  lemma StoreSteps(s: State, rid: nat)
    requires Inv(s) && rid in s.calls && s.calls[rid].worker.Registered?
    ensures Inv(Set(s, rid, AfterStore(s.calls[rid])))
  {
    OneCall(s.calls, s.queue, s.nextRid, rid);
    StoredKeeps(s.calls[rid], Count(s.queue, rid));
    UpdateKeeps(s.calls, s.queue, s.nextRid, rid, AfterStore(s.calls[rid]));
    StoreKeeps(s.calls, s.handles, s.nextHandle, rid);
  }

  /** d is c after one of the two ways to a discard. */
  ghost predicate Discards(c: CallState, d: CallState) {
    || (c.worker == MustDiscard && d == AfterWorkerDiscard(c))
    || (c.cancelling > 0 && d == AfterCancelDiscard(c))
  }

  lemma DiscardedKeeps(c: CallState, queued: nat, d: CallState)
    requires CallInv(c, queued) && Discards(c, d)
    ensures CallInv(d, queued) && d.discarded == 1 && c.call.done
    ensures !c.worker.Registered? && d.worker != Working && !d.worker.Registered? && d.toClose == c.toClose
  {}

  lemma DiscardSteps(s: State, rid: nat, d: CallState)
    requires Inv(s) && rid in s.calls && Discards(s.calls[rid], d)
    ensures Inv(Discard(s, rid, d))
    ensures forall h :: h in Discard(s, rid, d).handles ==> Discard(s, rid, d).handles[h] != rid
  {
    OneCall(s.calls, s.queue, s.nextRid, rid);
    DiscardedKeeps(s.calls[rid], Count(s.queue, rid), d);
    UpdateKeeps(s.calls, s.queue, s.nextRid, rid, d);
    DiscardKeeps(s.calls, s.handles, s.nextHandle, rid, d);
  }

  lemma StartSteps(s: State)
    requires Inv(s)
    ensures Inv(Set(s, s.nextRid, NEW_STATE).(nextRid := s.nextRid + 1))
  {
    StartKeeps(s.calls, s.queue, s.nextRid);
    HandlesExtend(s.calls, s.handles, s.nextHandle, s.nextRid);
  }

  lemma HandlesExtend(calls: Calls, handles: map<nat, nat>, next: nat, rid: nat)
    requires HandlesInv(calls, handles, next) && rid !in calls
    ensures HandlesInv(calls[rid := NEW_STATE], handles, next)
  {}

  lemma CloseSteps(s: State, h: nat)
    requires Inv(s)
    ensures Inv(s.(handles := s.handles - {h}))
  {}
}
