/** Every stream's window over whole runs: conservation, and what credit can run ahead of. */
module FlowStreams {

  import opened FlowControl

  /** The window, the bytes taken and not read, those thrown away and those read but not yet credited
      add up to the configured window, always; so the window never passes it. The peer counts the same
      window while the stream is known, and no more after. */
  ghost predicate StreamInv(g: Config, s: Stream) {
    && s.window + s.transit + s.buffered + s.unread + s.discarded + (s.consumed - s.credited) == g.streamFlow
    && 0 <= s.peer <= s.window <= g.streamFlow
    && (s.known ==> s.peer == s.window)
    && s.credited >= 0
    && (if s.closed then s.buffered == 0 else s.unread == 0)
    && (!s.reset ==> s.discarded == 0)
    && (s.closed || s.owed > 0 ==> s.measured)
    && (g.streamFlow <= AGGRESSIVE ==> s.credited == 0)
  }

  ghost predicate StreamsInv(g: Config, streams: map<nat, Stream>) {
    forall id :: id in streams ==> StreamInv(g, streams[id])
  }

  lemma ArrivedKeeps(g: Config, s: Stream, length: nat, pad: nat)
    requires Checked(g) && StreamInv(g, s) && pad <= length <= s.peer
    ensures StreamInv(g, Arrived(s, length, pad))
  {}

  lemma DueFits(g: Config, s: Stream)
    requires Checked(g) && StreamInv(g, s) && Due(g, Unsent(g, s))
    ensures 0 < Unsent(g, s) <= g.streamFlow - s.window && Wrap(Unsent(g, s)) == Unsent(g, s)
    ensures g.streamFlow > AGGRESSIVE
  {}

  lemma DueInFull(g: Config, s: Stream)
    requires Checked(g) && StreamInv(g, s)
    ensures StreamAdd(g, s.window, PipeLen(s)) == if Due(g, Unsent(g, s)) then Unsent(g, s) else 0
  {
    if Due(g, Unsent(g, s)) {
      DueFits(g, s);
    }
  }

  lemma CreditKeeps(g: Config, s: Stream, add: nat)
    requires StreamInv(g, s) && add <= g.streamFlow - s.window && (add > 0 ==> g.streamFlow > AGGRESSIVE)
    ensures StreamInv(g, s.(window := s.window + add, peer := s.peer + add, credited := s.credited + add,
                            reading := false))
  {}

  /** A read's refresh: what is due is credited in full, the guard never refusing it. */
  lemma RefreshKeeps(g: Config, s: Stream, ok: bool)
    requires Checked(g) && StreamInv(g, s)
    ensures StreamInv(g, Refreshed(g, s, ok))
    ensures Due(g, Unsent(g, s)) ==> StreamAdd(g, s.window, PipeLen(s)) == Unsent(g, s)
  {
    DueInFull(g, s);
    if Due(g, Unsent(g, s)) {
      DueFits(g, s);
    }
    CreditKeeps(g, s, if ok then StreamAdd(g, s.window, PipeLen(s)) else 0);
  }

  /** What a refresh credits is what was read and what is neither in the pipe nor read: it stays within
      the bytes read exactly when no frame is on its way to the pipe and none was thrown away. */
  lemma RefreshExact(g: Config, s: Stream)
    requires Checked(g) && StreamInv(g, s) && Due(g, Unsent(g, s))
    ensures var t := Refreshed(g, s, true);
            && t.credited == t.consumed + s.transit + s.discarded
            && (t.credited <= t.consumed <==> s.transit == 0 && s.discarded == 0)
  {
    RefreshKeeps(g, s, true);
  }

  lemma StreamPut(g: Config, streams: map<nat, Stream>, id: nat, s: Stream)
    requires StreamsInv(g, streams) && StreamInv(g, s)
    ensures StreamsInv(g, streams[id := s])
  {}

  lemma DataKeeps(g: Config, s: State, length: nat, pad: nat)
    requires Checked(g) && StreamsInv(g, s.streams) && Enabled(s, Data(length, pad))
    ensures StreamsInv(g, Do(g, s, Data(length, pad)).streams)
  {
    var t := s.streams[s.loop.id];
    ArrivedKeeps(g, t, length, pad);
    StreamPut(g, s.streams, s.loop.id, Arrived(t, length, pad));
  }

  lemma WrittenKeeps(g: Config, s: State)
    requires StreamsInv(g, s.streams) && Enabled(s, Written)
    ensures StreamsInv(g, Do(g, s, Written).streams)
  {
    StreamPut(g, s.streams, s.loop.id, AfterWrite(s.streams[s.loop.id]));
  }

  /** The steps of the read loop. */
  lemma LoopSteps(g: Config, s: State, step: Step)
    requires Checked(g) && StreamsInv(g, s.streams) && Enabled(s, step)
    requires step.Find? || step.Data? || step.Written? || step.Orphan?
    ensures StreamsInv(g, Do(g, s, step).streams)
  {
    match step
    case Find(id, last) => StreamPut(g, s.streams, id, s.streams[id].(known := !last));
    case Data(length, pad) => DataKeeps(g, s, length, pad);
    case Written => WrittenKeeps(g, s);
    case Orphan(id, length) =>
      StreamPut(g, s.streams, id, s.streams[id].(peer := s.streams[id].peer - length));
  }

  /** The steps of a close, and of a stream's end. */
  lemma CloseSteps(g: Config, s: State, step: Step)
    requires StreamsInv(g, s.streams) && Enabled(s, step)
    requires step.Measure? || step.Return? || step.Break? || step.Forget? || step.Reset?
    ensures StreamsInv(g, Do(g, s, step).streams)
  {
    match step
    case Measure(id) => StreamPut(g, s.streams, id, Measured(s.streams[id]));
    case Return(id, n, cancel) => StreamPut(g, s.streams, id, Paid(s.streams[id], n, cancel));
    case Break(id) => StreamPut(g, s.streams, id, Broken(s.streams[id]));
    case Forget(id) => StreamPut(g, s.streams, id, s.streams[id].(known := false));
    case Reset(id) => StreamPut(g, s.streams, id, s.streams[id].(reset := true));
  }

  lemma StreamSteps(g: Config, s: State, step: Step)
    requires Checked(g) && StreamsInv(g, s.streams) && Enabled(s, step)
    ensures StreamsInv(g, Do(g, s, step).streams)
  {
    match step
    case Open(id) => StreamPut(g, s.streams, id, NewStream(g));
    case ReadPipe(id, n) => StreamPut(g, s.streams, id, AfterRead(s.streams[id], n));
    case Refresh(id, ok) =>
      RefreshKeeps(g, s.streams[id], ok);
      StreamPut(g, s.streams, id, Refreshed(g, s.streams[id], ok));
    case EndRead(id) => StreamPut(g, s.streams, id, s.streams[id].(reading := false));
    case Find(_, _) => LoopSteps(g, s, step);
    case Data(_, _) => LoopSteps(g, s, step);
    case Written => LoopSteps(g, s, step);
    case Orphan(_, _) => LoopSteps(g, s, step);
    case _ => CloseSteps(g, s, step);
  }

  lemma {:induction false} StreamRuns(g: Config, states: seq<State>, steps: seq<Step>, k: nat)
    requires Checked(g) && Run(g, states, steps) && k < |states|
    ensures StreamsInv(g, states[k].streams)
  {
    if k > 0 {
      StreamRuns(g, states, steps, k - 1);
      assert Follows(g, states, steps, k - 1);
      StreamSteps(g, states[k - 1], steps[k - 1]);
    }
  }

  /** In every run, for every stream: conservation, a window within bounds that the peer counts as the
      client does, and no more credit than bytes received. */
  lemma StreamsConserve(g: Config, states: seq<State>, steps: seq<Step>, k: nat, id: nat)
    requires Checked(g) && Run(g, states, steps) && k < |states| && id in states[k].streams
    ensures var s := states[k].streams[id];
            && s.window + s.transit + PipeLen(s) + s.discarded + (s.consumed - s.credited) == g.streamFlow
            && 0 <= s.peer <= s.window <= g.streamFlow <= MAX
            && (s.known ==> s.peer == s.window)
            && s.credited <= s.consumed + s.transit + PipeLen(s) + s.discarded
  {
    StreamRuns(g, states, steps, k);
  }

  // ---- Does credit ever exceed what was read? ----

  predicate WithinRead(s: State, id: nat) {
    id in s.streams ==> s.streams[id].credited <= s.streams[id].consumed
  }

  /** A refresh that credits meets no frame on its way and none thrown away. */
  predicate CleanRefresh(g: Config, s: State, step: Step, id: nat) {
    step == Refresh(id, true) && id in s.streams && Due(g, Unsent(g, s.streams[id])) ==>
      s.streams[id].transit == 0 && s.streams[id].discarded == 0
  }

  /** Reads come before credit, and nothing else credits. */
  lemma OtherSteps(g: Config, s: State, step: Step, id: nat)
    requires Checked(g) && Enabled(s, step) && WithinRead(s, id) && step != Refresh(id, true)
    ensures WithinRead(Do(g, s, step), id)
  {}

  lemma CleanKeeps(g: Config, s: State, step: Step, id: nat)
    requires Checked(g) && StreamsInv(g, s.streams) && Enabled(s, step) && WithinRead(s, id)
    ensures WithinRead(Do(g, s, step), id) <==> CleanRefresh(g, s, step, id)
  {
    if step != Refresh(id, true) {
      OtherSteps(g, s, step, id);
    } else if Due(g, Unsent(g, s.streams[id])) {
      RefreshExact(g, s.streams[id]);
    }
  }

  lemma {:induction false} CleanRuns(g: Config, states: seq<State>, steps: seq<Step>, id: nat, k: nat)
    requires Checked(g) && Run(g, states, steps) && k < |states|
    requires forall j :: 0 <= j < |steps| ==> CleanRefresh(g, states[j], steps[j], id)
    ensures WithinRead(states[k], id)
  {
    if k > 0 {
      CleanRuns(g, states, steps, id, k - 1);
      StreamRuns(g, states, steps, k - 1);
      assert Follows(g, states, steps, k - 1);
      CleanKeeps(g, states[k - 1], steps[k - 1], id);
    }
  }

  /** Credit stays within the bytes read all through a run exactly when each refresh that credits was
      clean: the lock could tell. */
  lemma CreditExact(g: Config, states: seq<State>, steps: seq<Step>, id: nat)
    requires Checked(g) && Run(g, states, steps)
    ensures (forall k :: 0 <= k < |states| ==> WithinRead(states[k], id)) <==>
            (forall k :: 0 <= k < |steps| ==> CleanRefresh(g, states[k], steps[k], id))
  {
    if forall k :: 0 <= k < |states| ==> WithinRead(states[k], id) {
      forall k | 0 <= k < |steps|
        ensures CleanRefresh(g, states[k], steps[k], id)
      {
        assert Follows(g, states, steps, k);
        StreamRuns(g, states, steps, k);
        CleanKeeps(g, states[k], steps[k], id);
      }
    }
    if forall k :: 0 <= k < |steps| ==> CleanRefresh(g, states[k], steps[k], id) {
      forall k | 0 <= k < |states|
        ensures WithinRead(states[k], id)
      {
        CleanRuns(g, states, steps, id, k);
      }
    }
  }

  function AfterFirst(g: Config, a: nat): Stream {
    AfterRead(AfterWrite(Arrived(NewStream(g), a, 0)), a)
  }

  lemma EarlyRefresh(g: Config, a: nat, b: nat)
    requires Checked(g) && 0 < a && 0 < b && Due(g, a + b) && a + b <= g.streamFlow
    ensures AfterFirst(g, a).known && AfterFirst(g, a).reading && b <= AfterFirst(g, a).peer
    ensures var s := Refreshed(g, Arrived(AfterFirst(g, a).(known := true), b, 0), true);
            s.consumed == a && s.credited == a + b
  {}

  /** A stream whose reader has its first a bytes and not yet looked at the windows. */
  lemma FirstRead(g: Config, a: nat) returns (t: State)
    requires Checked(g) && 0 < a <= g.streamFlow && a <= MAX_FRAME && a <= g.connFlow + INITIAL_WINDOW
    ensures Reachable(g, t) && t.loop.Idle? && 1 in t.streams
    ensures t.streams[1] == AfterFirst(g, a)
    ensures PeerWindow(t.conn) == g.connFlow + INITIAL_WINDOW - a
  {
    Start(g);
    var s0 := Do(g, Initial(g), Open(1));
    Extend(g, Initial(g), Open(1));
    var s1 := Do(g, s0, Find(1, false));
    Extend(g, s0, Find(1, false));
    var s2 := Do(g, s1, Data(a, 0));
    Extend(g, s1, Data(a, 0));
    var s3 := Do(g, s2, Written);
    Extend(g, s2, Written);
    t := Do(g, s3, ReadPipe(1, a));
    Extend(g, s3, ReadPipe(1, a));
  }

  /** Not every run is clean: a read that looks at the windows while a second frame is between window
      and pipe credits that frame before anyone has read it. */
  lemma CreditMayRunAhead(g: Config, a: nat, b: nat) returns (t: State)
    requires Checked(g) && 0 < a && 0 < b && Due(g, a + b) && a + b <= g.streamFlow
    requires a <= MAX_FRAME && b <= MAX_FRAME && a + b <= g.connFlow
    ensures Reachable(g, t) && 1 in t.streams
    ensures t.streams[1].consumed == a && t.streams[1].credited == a + b
  {
    var s0 := FirstRead(g, a);
    EarlyRefresh(g, a, b);
    var s1 := Do(g, s0, Find(1, false));
    Extend(g, s0, Find(1, false));
    assert s1.streams[1] == AfterFirst(g, a).(known := true);
    var s2 := Do(g, s1, Data(b, 0));
    Extend(g, s1, Data(b, 0));
    assert s2.streams[1] == Arrived(s1.streams[1], b, 0);
    t := Do(g, s2, Refresh(1, true));
    Extend(g, s2, Refresh(1, true));
  }

  // ---- Does a stream ever wait for credit that does not come? ----

  function Threshold(g: Config): int {
    if g.streamFlow < SMALL_WINDOW then AGGRESSIVE else g.streamFlow / 2
  }

  /** After a read without error that leaves nothing unread, the stream's window is open, if streamFlow
      is above the threshold of small windows. */
  lemma DrainedStreamIsOpen(g: Config, s: Stream)
    requires Checked(g) && StreamInv(g, s) && g.streamFlow > AGGRESSIVE && PipeLen(s) == 0
    ensures var t := Refreshed(g, s, true); t.window >= g.streamFlow - Threshold(g) && t.window > 0
  {}

  /** A stream is never credited when streamFlow is not above it: what is read shuts the window. */
  lemma SmallStreamsStall(g: Config, states: seq<State>, steps: seq<Step>, k: nat, id: nat)
    requires Checked(g) && g.streamFlow <= AGGRESSIVE && Run(g, states, steps)
    requires k < |states| && id in states[k].streams
    ensures states[k].streams[id].credited == 0
    ensures states[k].streams[id].consumed == g.streamFlow ==> states[k].streams[id].window == 0
  {
    StreamRuns(g, states, steps, k);
  }

  /** And such a run there is: one body as long as the window, read whole. */
  lemma SmallStreamStalls(g: Config) returns (t: State)
    requires Checked(g) && g.streamFlow <= AGGRESSIVE
    ensures Reachable(g, t) && 1 in t.streams && t.streams[1].consumed == g.streamFlow
    ensures t.streams[1].window == 0 && t.streams[1].peer == 0 && !t.streams[1].reading
  {
    var s := FirstRead(g, g.streamFlow);
    t := Do(g, s, Refresh(1, true));
    Extend(g, s, Refresh(1, true));
  }
}
