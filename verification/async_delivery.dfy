/** What a disciplined caller of asynchronous calls can rely on, in every run. */
module AsyncDelivery {
  import opened AsyncCalls
  import opened AsyncRuns

  /** Every step of a disciplined run keeps the invariant. */
  lemma StepKeeps(s: State, step: Step)
    requires Inv(s) && Enabled(s, step, true)
    ensures Inv(Do(s, step, true))
  {
    if IsLocal(step) {
      LocalDo(s, step);
      LocalSteps(s, step, step.rid, Stepped(s.calls[step.rid], step));
    } else {
      match step
      case Start => StartSteps(s);
      case PushInterim(rid) => PushInterimSteps(s, rid);
      case PushFinal(rid) => PushFinalSteps(s, rid);
      case Wait => WaitSteps(s);
      case Open(rid) => OpenSteps(s, rid);
      case Store(rid) => StoreSteps(s, rid);
      case WorkerDiscards(rid) => DiscardSteps(s, rid, AfterWorkerDiscard(s.calls[rid]));
      case CancelDiscards(rid) => DiscardSteps(s, rid, AfterCancelDiscard(s.calls[rid]));
      case CloseHandle(h) => CloseSteps(s, h);
    }
  }

  lemma {:induction false} RunKeeps(s: State, steps: seq<Step>, t: State)
    requires Inv(s)
    ensures Reaches(s, steps, t, true) ==> Inv(t)
    decreases |steps|
  {
    if steps != [] && Enabled(s, steps[0], true) {
      StepKeeps(s, steps[0]);
      RunKeeps(Do(s, steps[0], true), steps[1..], t);
    }
  }

  /** What each step keeps of the steps so far and the state they lead to, every run keeps. */
  lemma {:induction false} EveryRun(keep: (seq<Step>, State) -> bool, before: seq<Step>, s: State,
                                    steps: seq<Step>, t: State, disciplined: bool)
    requires keep(before, s) && Reaches(s, steps, t, disciplined)
    requires forall b, x, step :: keep(b, x) && Enabled(x, step, disciplined)
                                  ==> keep(b + [step], Do(x, step, disciplined))
    ensures keep(before + steps, t)
    decreases |steps|
  {
    if steps == [] {
      assert before + steps == before;
    } else {
      EveryRun(keep, before + [steps[0]], Do(s, steps[0], disciplined), steps[1..], t, disciplined);
      assert before + [steps[0]] + steps[1..] == before + steps;
    }
  }

  lemma InitialInv()
    ensures Inv(INITIAL)
  {}

  lemma ReachableInv(t: State)
    requires Reachable(t)
    ensures Inv(t)
  {
    var steps :| Reaches(INITIAL, steps, t, true);
    InitialInv();
    RunKeeps(INITIAL, steps, t);
  }

  /** The first k interim frames have been handed back, and after the last of them perhaps the answer. */
  ghost predicate Delivered(c: CallState, k: nat) {
    && k <= |c.appended|
    && (c.results == Interims(c.appended[..k])
        || (k == |c.appended| && c.call.done && c.results == Interims(c.appended) + [Answer(c.call.frame)]))
  }

  lemma InOrderDelivered(c: CallState)
    requires InOrder(c) && Conserved(c)
    ensures Delivered(c, |c.appended| - |c.call.events|)
  {
    var k := |c.appended| - |c.call.events|;
    if Answers(c.results) > 0 {
      assert k == |c.appended|;
      assert c.appended[..k] == c.appended;
      assert c.call.done;
      assert c.results == Interims(c.appended) + [Answer(c.call.frame)];
    } else {
      assert c.results == Interims(c.appended[..k]) + [];
    }
  }

  /** No take of a call nobody cancelled is turned away: an announced number still has its call,
      the lock finds a frame there, and the unlocked read of done finds it set. */
  lemma EachTakeFindsAFrame(t: State, rid: nat)
    requires Reachable(t) && rid in t.calls && !t.calls[rid].cancelled
    ensures var c := t.calls[rid];
            && c.misses == 0
            && (c.announced > 0 ==> c.registered && !Take(c.call).NotYet?)
            && c.readingGone == 0
            && (c.readingOk > 0 ==> c.call.done)
            && exists k :: Delivered(c, k)
  {
    ReachableInv(t);
    var c := t.calls[rid];
    OneCall(t.calls, t.queue, t.nextRid, rid);
    InOrderDelivered(c);
    if c.announced > 0 {
      TakeKeeps(c, Count(t.queue, rid));
    }
  }

  lemma AllDelivered(c: CallState, queued: nat)
    requires CallInv(c, queued) && c.call.done && !c.cancelled && Tokens(c, queued) == 0 && c.readingOk == 0
    ensures !c.registered && c.results == Interims(c.appended) + [Answer(c.call.frame)]
  {
    assert c.appended[..|c.appended|] == c.appended;
  }

  /** Once nothing of an uncancelled call is under way, all its interim frames and then its answer
      have been handed back, each once. */
  lemma AllDeliveredAtRest(t: State, rid: nat)
    requires Reachable(t) && rid in t.calls
    requires var c := t.calls[rid];
             c.call.done && !c.cancelled && Tokens(c, Count(t.queue, rid)) == 0 && c.readingOk == 0
    ensures var c := t.calls[rid];
            !c.registered && c.results == Interims(c.appended) + [Answer(c.call.frame)]
  {
    ReachableInv(t);
    OneCall(t.calls, t.queue, t.nextRid, rid);
    AllDelivered(t.calls[rid], Count(t.queue, rid));
  }

  /** A finished call is in exactly one place: registered, in a take's hands, answered, owed a
      discard, or discarded; only a cancelled one is discarded, and only then is it not answered. */
  lemma EachCallEndsOnce(t: State, rid: nat)
    requires Reachable(t) && rid in t.calls && t.calls[rid].call.done
    ensures var c := t.calls[rid];
            && One(c.registered) + c.readingOk + Answers(c.results) + Owed(c) + c.discarded == 1
            && (Owed(c) + c.discarded > 0 ==> c.cancelled)
  {
    ReachableInv(t);
    OneCall(t.calls, t.queue, t.nextRid, rid);
  }

  /** Every stream, socket or connection still open belongs to a call that is still working,
      delivered, being delivered, or awaiting its take or discard, and that discard would close it. */
  lemma NoHandleLeaks(t: State, h: nat)
    requires Reachable(t) && h in t.handles
    ensures t.handles[h] in t.calls
    ensures var c := t.calls[t.handles[h]];
            && c.discarded == 0
            && (!c.call.done || One(c.registered) + c.readingOk + Answers(c.results) + Owed(c) == 1)
            && (c.call.done ==> c.toClose == h)
  {
    ReachableInv(t);
    OneCall(t.calls, t.queue, t.nextRid, t.handles[h]);
  }
}
