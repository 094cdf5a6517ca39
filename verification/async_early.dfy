/** What a caller gets that takes without waiting. */
module AsyncEarly {
  import opened AsyncCalls
  import opened AsyncRuns

  lemma StepThen(s: State, step: Step, rest: seq<Step>, t: State)
    requires Enabled(s, step, false) && Reaches(Do(s, step, false), rest, t, false)
    ensures Reaches(s, [step] + rest, t, false)
  {
    assert ([step] + rest)[1..] == rest;
  }

  function Single(c: CallState, queue: seq<nat>): State {
    State(map[1 := c], queue, 2, map[], 1)
  }

  /** The last three steps, from a call whose number is announced. */
  lemma TakenAgain(c: CallState)
    requires c.announced == 1 && c.registered && c.call.done && c.call.events == [] && c.readingOk == 0
    ensures Reaches(Single(c, []), [TakeLocks(1), TakeReadsDone(1)], Single(AfterRead(AfterTake(c)), []), false)
  {
    var d := AfterTake(c);
    assert Do(Single(c, []), TakeLocks(1), false) == Single(d, []);
    var e := AfterRead(d);
    assert Do(Single(d, []), TakeReadsDone(1), false) == Single(e, []);
    assert Reaches(Single(e, []), [], Single(e, []), false);
    StepThen(Single(d, []), TakeReadsDone(1), [], Single(e, []));
    assert [TakeReadsDone(1)] + [] == [TakeReadsDone(1)];
    StepThen(Single(c, []), TakeLocks(1), [TakeReadsDone(1)], Single(e, []));
    assert [TakeLocks(1)] + [TakeReadsDone(1)] == [TakeLocks(1), TakeReadsDone(1)];
  }

  lemma Announces(c: CallState, rest: seq<Step>, t: State)
    requires c.worker == MustPush && Reaches(Single(Announced(AfterPushFinal(c)), []), rest, t, false)
    ensures Reaches(Single(c, []), [PushFinal(1), Wait] + rest, t, false)
  {
    var d := AfterPushFinal(c);
    assert Do(Single(c, []), PushFinal(1), false) == Single(d, [1]);
    assert Do(Single(d, [1]), Wait, false) == Single(Announced(d), []);
    StepThen(Single(d, [1]), Wait, rest, t);
    StepThen(Single(c, []), PushFinal(1), [Wait] + rest, t);
    assert [PushFinal(1)] + ([Wait] + rest) == [PushFinal(1), Wait] + rest;
  }

  lemma TakesEarly(c: CallState, rest: seq<Step>, t: State)
    requires c == AfterTake(NEW_STATE) && Reaches(Single(c, []), rest, t, false)
    ensures Reaches(INITIAL, [Start, TakeLocks(1)] + rest, t, false)
  {
    assert Do(INITIAL, Start, false) == Single(NEW_STATE, []);
    assert Do(Single(NEW_STATE, []), TakeLocks(1), false) == Single(c, []);
    StepThen(Single(NEW_STATE, []), TakeLocks(1), rest, t);
    StepThen(INITIAL, Start, [TakeLocks(1)] + rest, t);
    assert [Start] + ([TakeLocks(1)] + rest) == [Start, TakeLocks(1)] + rest;
  }

  lemma FinishesFirst(c: CallState, rest: seq<Step>, t: State)
    requires c.worker == Working && c.readingOk > 0
    requires Reaches(Single(AfterRead(AfterFinish(c, "frame")), []), rest, t, false)
    ensures Reaches(Single(c, []), [Finish(1, "frame"), TakeReadsDone(1)] + rest, t, false)
  {
    var d := AfterFinish(c, "frame");
    var e := AfterRead(d);
    assert Do(Single(c, []), Finish(1, "frame"), false) == Single(d, []);
    assert Do(Single(d, []), TakeReadsDone(1), false) == Single(e, []);
    StepThen(Single(d, []), TakeReadsDone(1), rest, t);
    StepThen(Single(c, []), Finish(1, "frame"), [TakeReadsDone(1)] + rest, t);
    assert [Finish(1, "frame")] + ([TakeReadsDone(1)] + rest) == [Finish(1, "frame"), TakeReadsDone(1)] + rest;
  }

  /** From a call nobody has waited for to the same frame handed back twice. */
  lemma TwiceFrom(c: CallState, d: CallState, e: CallState)
    requires c.worker == MustPush && c.registered && c.call.done && c.call.events == []
    requires c.readingOk == 0 && c.announced == 0
    requires d == Announced(AfterPushFinal(c)) && e == AfterRead(AfterTake(d))
    ensures Reaches(Single(c, []), [PushFinal(1), Wait] + [TakeLocks(1), TakeReadsDone(1)], Single(e, []), false)
  {
    TakenAgain(d);
    Announces(c, [TakeLocks(1), TakeReadsDone(1)], Single(e, []));
  }

  lemma FirstAnswer(c: CallState)
    requires c == AfterRead(AfterFinish(AfterTake(NEW_STATE), "frame"))
    ensures AfterTake(NEW_STATE).worker == Working && AfterTake(NEW_STATE).readingOk > 0
    ensures c.worker == MustPush && c.registered && c.call.done && c.call.events == [] && c.call.frame == "frame"
    ensures c.readingOk == 0 && c.announced == 0 && c.results == [Answer("frame")]
  {}

  lemma FromTheStart(last: seq<Step>, t: State) returns (steps: seq<Step>)
    requires Reaches(Single(AfterRead(AfterFinish(AfterTake(NEW_STATE), "frame")), []), last, t, false)
    ensures Reaches(INITIAL, steps, t, false)
  {
    var rest := [Finish(1, "frame"), TakeReadsDone(1)] + last;
    FinishesFirst(AfterTake(NEW_STATE), last, t);
    TakesEarly(AfterTake(NEW_STATE), rest, t);
    steps := [Start, TakeLocks(1)] + rest;
  }

  lemma SecondAnswer(c: CallState) returns (e: CallState)
    requires c.worker == MustPush && c.registered && c.call.done && c.call.events == [] && c.call.frame == "frame"
    requires c.readingOk == 0 && c.announced == 0 && c.results == [Answer("frame")]
    ensures Reaches(Single(c, []), [PushFinal(1), Wait] + [TakeLocks(1), TakeReadsDone(1)], Single(e, []), false)
    ensures e.results == [Answer("frame"), Answer("frame")]
  {
    var d := Announced(AfterPushFinal(c));
    e := AfterRead(AfterTake(d));
    TwiceFrom(c, d, e);
  }

  /** Only the discipline makes the unlocked read harmless. A caller that takes without waiting, locks
      before the call is done and reads done after it gets the frame once now and once later. */
  lemma EarlyTakeAnswersTwice()
    ensures exists steps, t :: Reaches(INITIAL, steps, t, false) && 1 in t.calls
                               && t.calls[1].results == [Answer("frame"), Answer("frame")]
  {
    var c := AfterRead(AfterFinish(AfterTake(NEW_STATE), "frame"));
    FirstAnswer(c);
    var e := SecondAnswer(c);
    var t := Single(e, []);
    var steps := FromTheStart([PushFinal(1), Wait] + [TakeLocks(1), TakeReadsDone(1)], t);
    assert 1 in t.calls && t.calls[1] == e;
  }
}
