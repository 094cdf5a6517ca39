/** Which streams, sockets and connections are open, read off a run's steps. */
module AsyncHandles {
  import opened AsyncCalls
  import opened AsyncRuns
  import opened AsyncDelivery

  /** The calls that opened the handles 1, 2, 3 and so on. */
  function Openers(steps: seq<Step>): seq<nat> {
    if steps == [] then []
    else
      var before, last := Openers(steps[..|steps| - 1]), steps[|steps| - 1];
      if last.Open? then before + [last.rid] else before
  }

  function Discards(steps: seq<Step>, rid: nat): nat {
    if steps == [] then 0
    else
      var last := steps[|steps| - 1];
      Discards(steps[..|steps| - 1], rid)
        + One((last.WorkerDiscards? || last.CancelDiscards?) && last.rid == rid)
  }

  lemma Appended(steps: seq<Step>, step: Step, rid: nat)
    ensures Openers(steps + [step]) == if step.Open? then Openers(steps) + [step.rid] else Openers(steps)
    ensures Discards(steps + [step], rid)
            == Discards(steps, rid) + One((step.WorkerDiscards? || step.CancelDiscards?) && step.rid == rid)
    ensures forall h: nat :: CloseHandle(h) in steps + [step] <==> CloseHandle(h) in steps || step == CloseHandle(h)
  {
    assert (steps + [step])[..|steps|] == steps;
  }

  predicate OpenedBy(openers: seq<nat>, h: nat, rid: nat) {
    0 < h <= |openers| && openers[h - 1] == rid
  }

  /** The handle a call knows of is one it opened. */
  predicate Knows(c: CallState, openers: seq<nat>, rid: nat) {
    && (c.toClose > 0 ==> OpenedBy(openers, c.toClose, rid))
    && (c.worker.Registered? ==> OpenedBy(openers, c.worker.handle, rid))
  }

  ghost predicate CallsMatch(steps: seq<Step>, calls: Calls, nextRid: nat) {
    && (forall rid :: rid in calls ==>
          rid < nextRid && Knows(calls[rid], Openers(steps), rid) && calls[rid].discarded == Discards(steps, rid))
    && (forall rid: nat :: rid !in calls ==> Discards(steps, rid) == 0 && rid !in Openers(steps))
  }

  /** Neither closed by itself nor by its call's discard. */
  ghost predicate StillOpen(steps: seq<Step>, h: nat) {
    0 < h <= |Openers(steps)| && CloseHandle(h) !in steps && Discards(steps, Openers(steps)[h - 1]) == 0
  }

  ghost predicate HandlesMatch(steps: seq<Step>, handles: map<nat, nat>, next: nat) {
    && next == |Openers(steps)| + 1
    && forall h: nat :: (StillOpen(steps, h) ==> h in handles)
                        && (h in handles ==> StillOpen(steps, h) && handles[h] == Openers(steps)[h - 1])
  }

  ghost predicate Matches(steps: seq<Step>, s: State) {
    CallsMatch(steps, s.calls, s.nextRid) && HandlesMatch(steps, s.handles, s.nextHandle)
  }

  // ---- Each step keeps it ----

  predicate IsDiscard(step: Step) {
    step.WorkerDiscards? || step.CancelDiscards?
  }

  /** What a step that opens and discards nothing does to a call. */
  lemma OtherCall(s: State, step: Step, rid: nat)
    requires Enabled(s, step, true) && rid in s.calls && !step.Open? && !IsDiscard(step)
    requires step.Start? ==> rid != s.nextRid
    ensures rid in Do(s, step, true).calls
    ensures var c, d := s.calls[rid], Do(s, step, true).calls[rid];
            && d.discarded == c.discarded
            && (d.worker.Registered? ==> d.worker == c.worker)
            && (d.toClose == c.toClose || (c.worker.Registered? && d.toClose == c.worker.handle))
  {}

  lemma OtherSame(s: State, step: Step)
    requires Enabled(s, step, true) && !step.Open? && !IsDiscard(step)
    ensures var t := Do(s, step, true);
            && t.nextHandle == s.nextHandle
            && t.handles == (if step.CloseHandle? then s.handles - {step.handle} else s.handles)
            && t.calls.Keys == (if step.Start? then s.calls.Keys + {s.nextRid} else s.calls.Keys)
            && t.nextRid == (if step.Start? then s.nextRid + 1 else s.nextRid)
            && (step.Start? ==> t.calls[s.nextRid] == NEW_STATE)
  {}

  lemma OtherCalls(steps: seq<Step>, s: State, step: Step)
    requires CallsMatch(steps, s.calls, s.nextRid)
    requires Enabled(s, step, true) && !step.Open? && !IsDiscard(step)
    ensures CallsMatch(steps + [step], Do(s, step, true).calls, Do(s, step, true).nextRid)
  {
    OtherSame(s, step);
    var t := Do(s, step, true);
    forall rid: nat ensures Discards(steps + [step], rid) == Discards(steps, rid)
                            && Openers(steps + [step]) == Openers(steps) {
      Appended(steps, step, rid);
    }
    forall rid | rid in s.calls ensures Knows(t.calls[rid], Openers(steps), rid)
                                        && t.calls[rid].discarded == s.calls[rid].discarded {
      OtherCall(s, step, rid);
    }
  }

  lemma OtherHandles(steps: seq<Step>, s: State, step: Step)
    requires HandlesMatch(steps, s.handles, s.nextHandle)
    requires Enabled(s, step, true) && !step.Open? && !IsDiscard(step)
    ensures HandlesMatch(steps + [step], Do(s, step, true).handles, Do(s, step, true).nextHandle)
  {
    OtherSame(s, step);
    forall h: nat ensures StillOpen(steps + [step], h) <==> StillOpen(steps, h) && step != CloseHandle(h) {
      Appended(steps, step, if 0 < h <= |Openers(steps)| then Openers(steps)[h - 1] else 0);
    }
    Appended(steps, step, 0);
  }

  lemma OpenCalls(steps: seq<Step>, s: State, rid: nat)
    requires CallsMatch(steps, s.calls, s.nextRid) && s.nextHandle == |Openers(steps)| + 1
    requires Enabled(s, Open(rid), true)
    ensures CallsMatch(steps + [Open(rid)], s.calls[rid := AfterOpen(s.calls[rid], s.nextHandle)], s.nextRid)
  {
    forall r: nat ensures Discards(steps + [Open(rid)], r) == Discards(steps, r)
                          && Openers(steps + [Open(rid)]) == Openers(steps) + [rid] {
      Appended(steps, Open(rid), r);
    }
  }

  lemma OpenHandles(steps: seq<Step>, handles: map<nat, nat>, next: nat, rid: nat)
    requires HandlesMatch(steps, handles, next)
    requires Discards(steps, rid) == 0 && CloseHandle(next) !in steps
    ensures HandlesMatch(steps + [Open(rid)], handles[next := rid], next + 1)
  {
    var openers: seq<nat> := Openers(steps);
    Appended(steps, Open(rid), rid);
    forall h: nat ensures StillOpen(steps + [Open(rid)], h) <==> StillOpen(steps, h) || h == next {
      Appended(steps, Open(rid), if 0 < h <= |openers| then openers[h - 1] else rid);
    }
  }

  /** No handle is closed before it is opened. */
  ghost predicate NoneAhead(steps: seq<Step>, next: nat) {
    forall h: nat :: CloseHandle(h) in steps ==> h < next
  }

  lemma DiscardCalls(steps: seq<Step>, calls: Calls, nextRid: nat, step: Step, d: CallState)
    requires CallsMatch(steps, calls, nextRid) && IsDiscard(step) && step.rid in calls
    requires d.toClose == calls[step.rid].toClose && !d.worker.Registered?
    requires d.discarded == calls[step.rid].discarded + 1
    ensures CallsMatch(steps + [step], calls[step.rid := d], nextRid)
  {
    forall r: nat ensures Discards(steps + [step], r) == Discards(steps, r) + One(r == step.rid)
                          && Openers(steps + [step]) == Openers(steps) {
      Appended(steps, step, r);
    }
  }

  /** Every open handle of the call is the one its discard closes. */
  lemma DiscardHandles(steps: seq<Step>, handles: map<nat, nat>, next: nat, step: Step, toClose: nat)
    requires HandlesMatch(steps, handles, next) && IsDiscard(step)
    requires toClose > 0 ==> OpenedBy(Openers(steps), toClose, step.rid)
    requires forall h :: h in handles && handles[h] == step.rid ==> h == toClose
    ensures HandlesMatch(steps + [step], handles - {toClose}, next)
  {
    var openers := Openers(steps);
    Appended(steps, step, step.rid);
    forall h: nat
      ensures StillOpen(steps + [step], h) <==> StillOpen(steps, h) && openers[h - 1] != step.rid
    {
      Appended(steps, step, if 0 < h <= |openers| then openers[h - 1] else 0);
    }
  }

  lemma DiscardStep(steps: seq<Step>, s: State, step: Step, d: CallState)
    requires Matches(steps, s) && Inv(s) && IsDiscard(step) && step.rid in s.calls
    requires AsyncRuns.Discards(s.calls[step.rid], d) && d.discarded == s.calls[step.rid].discarded + 1
    ensures Matches(steps + [step], Discard(s, step.rid, d))
  {
    var c := s.calls[step.rid];
    OneCall(s.calls, s.queue, s.nextRid, step.rid);
    DiscardedKeeps(c, Count(s.queue, step.rid), d);
    DiscardCalls(steps, s.calls, s.nextRid, step, d);
    DiscardHandles(steps, s.handles, s.nextHandle, step, c.toClose);
  }

  lemma OpenStep(steps: seq<Step>, s: State, rid: nat)
    requires Matches(steps, s) && NoneAhead(steps, s.nextHandle) && Inv(s) && Enabled(s, Open(rid), true)
    ensures Matches(steps + [Open(rid)], Do(s, Open(rid), true))
  {
    OneCall(s.calls, s.queue, s.nextRid, rid);
    OpenCalls(steps, s, rid);
    OpenHandles(steps, s.handles, s.nextHandle, rid);
  }

  lemma DiscardsKeep(steps: seq<Step>, s: State, step: Step)
    requires Matches(steps, s) && Inv(s) && Enabled(s, step, true) && IsDiscard(step)
    ensures Matches(steps + [step], Do(s, step, true))
  {
    if step.WorkerDiscards? {
      DiscardStep(steps, s, step, AfterWorkerDiscard(s.calls[step.rid]));
    } else {
      DiscardStep(steps, s, step, AfterCancelDiscard(s.calls[step.rid]));
    }
  }

  lemma MatchesKeep(steps: seq<Step>, s: State, step: Step)
    requires Matches(steps, s) && NoneAhead(steps, s.nextHandle) && Inv(s) && Enabled(s, step, true)
    ensures Matches(steps + [step], Do(s, step, true))
  {
    if step.Open? {
      OpenStep(steps, s, step.rid);
    } else if IsDiscard(step) {
      DiscardsKeep(steps, s, step);
    } else {
      OtherCalls(steps, s, step);
      OtherHandles(steps, s, step);
    }
  }

  lemma NoneAheadKeeps(steps: seq<Step>, s: State, step: Step)
    requires NoneAhead(steps, s.nextHandle) && Inv(s) && Enabled(s, step, true)
    ensures NoneAhead(steps + [step], Do(s, step, true).nextHandle)
  {
    Appended(steps, step, 0);
    if !step.Open? && !IsDiscard(step) {
      OtherSame(s, step);
    }
  }

  ghost predicate AllMatches(steps: seq<Step>, s: State) {
    Matches(steps, s) && NoneAhead(steps, s.nextHandle) && Inv(s)
  }

  lemma AllMatchesKeep(steps: seq<Step>, s: State, step: Step)
    requires AllMatches(steps, s) && Enabled(s, step, true)
    ensures AllMatches(steps + [step], Do(s, step, true))
  {
    MatchesKeep(steps, s, step);
    NoneAheadKeeps(steps, s, step);
    StepKeeps(s, step);
  }

  lemma RunMatches(steps: seq<Step>, t: State)
    requires Reaches(INITIAL, steps, t, true)
    ensures AllMatches(steps, t)
  {
    InitialInv();
    assert AllMatches([], INITIAL);
    forall before, s, step | AllMatches(before, s) && Enabled(s, step, true)
      ensures AllMatches(before + [step], Do(s, step, true))
    {
      AllMatchesKeep(before, s, step);
    }
    EveryRun(AllMatches, [], INITIAL, steps, t, true);
    assert [] + steps == steps;
  }

  /** A handle is open exactly from the step that opened it to the step that closed it or discarded its call. */
  lemma OpenExactly(steps: seq<Step>, t: State, h: nat)
    requires Reaches(INITIAL, steps, t, true)
    ensures h in t.handles <==> StillOpen(steps, h)
    ensures h in t.handles ==> t.handles[h] == Openers(steps)[h - 1]
  {
    RunMatches(steps, t);
  }
}
