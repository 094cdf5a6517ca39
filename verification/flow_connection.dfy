/** The connection's window over whole runs, and the peer's view of it. */
module FlowConnection {

  import opened FlowControl
  import opened FlowStreams

  lemma {:induction false} UnreadWithout(streams: map<nat, Stream>, id: nat)
    requires id in streams
    ensures Unread(streams) == Load(streams[id]) + Unread(streams - {id})
    decreases |streams|
  {
    var first :| first in streams && Unread(streams) == Load(streams[first]) + Unread(streams - {first});
    if first != id {
      UnreadWithout(streams - {first}, id);
      UnreadWithout(streams - {id}, first);
      assert streams - {first} - {id} == streams - {id} - {first};
    }
  }

  lemma UnreadPut(streams: map<nat, Stream>, id: nat, s: Stream)
    ensures Unread(streams[id := s]) == Load(s) + Unread(streams - {id})
    ensures Unread(streams) == (if id in streams then Load(streams[id]) else 0) + Unread(streams - {id})
  {
    UnreadWithout(streams[id := s], id);
    assert streams[id := s] - {id} == streams - {id};
    if id in streams {
      UnreadWithout(streams, id);
    } else {
      assert streams - {id} == streams;
    }
  }

  function Min(a: nat, b: nat): nat {
    if a < b then a else b
  }

  /** What the windows can come to hold stays within 32 bits. A caller can tell: it is a bound on the
      bytes closes return and the bytes that came for forgotten streams. */
  predicate Room(g: Config, c: Conn) {
    g.connFlow + INITIAL_WINDOW + Min(c.peak + c.again, c.returned) + c.orphaned <= MAX
  }

  /** The window is what the peer has, but for the orphaned bytes it counts a second time. */
  predicate ConnInv(g: Config, c: Conn, unread: nat) {
    && c.window == PeerWindow(c) + c.orphaned
    && PeerWindow(c) >= 0
    && unread <= c.peak
    && c.window + unread <= g.connFlow + INITIAL_WINDOW + c.peak + c.again + c.orphaned
    && c.window <= g.connFlow + INITIAL_WINDOW + c.returned + c.orphaned
  }

  lemma FrameKeeps(g: Config, c: Conn, streams: map<nat, Stream>, id: nat, length: nat, pad: nat)
    requires Checked(g) && id in streams && pad <= length <= PeerWindow(c) && Room(g, c)
    requires ConnInv(g, c, Unread(streams))
    ensures var d := Taken(c, length, Refund(streams[id], length, pad));
            var u := streams[id := Arrived(streams[id], length, pad)];
            ConnInv(g, Peaked(d, u), Unread(u))
  {
    UnreadPut(streams, id, Arrived(streams[id], length, pad));
  }

  /** A stream changed and no byte more to return. */
  lemma QuietKeeps(g: Config, c: Conn, streams: map<nat, Stream>, id: nat, s: Stream)
    requires ConnInv(g, c, Unread(streams)) && Load(s) <= if id in streams then Load(streams[id]) else 0
    ensures ConnInv(g, c, Unread(streams[id := s]))
  {
    UnreadPut(streams, id, s);
  }

  lemma RefreshedKeeps(g: Config, c: Conn, unread: nat)
    requires Checked(g) && ConnInv(g, c, unread)
    ensures ConnInv(g, ConnRefreshed(g, c), unread)
  {}

  lemma OrphanKeeps(g: Config, c: Conn, unread: nat, length: nat)
    requires Room(g, Orphaned(c, length)) && ConnInv(g, c, unread)
    ensures ConnInv(g, Orphaned(c, length), unread)
  {}

  lemma MeasureKeeps(g: Config, c: Conn, streams: map<nat, Stream>, id: nat)
    requires id in streams && StreamInv(g, streams[id]) && ConnInv(g, c, Unread(streams))
    ensures var u := streams[id := Measured(streams[id])];
            ConnInv(g, Peaked(Counted(c, streams[id]), u), Unread(u))
  {
    UnreadPut(streams, id, Measured(streams[id]));
  }

  lemma ReturnKeeps(g: Config, c: Conn, streams: map<nat, Stream>, id: nat, n: nat, cancel: bool)
    requires Checked(g) && id in streams && n <= streams[id].owed && Room(g, Returned(c, n))
    requires ConnInv(g, c, Unread(streams)) && StreamInv(g, streams[id])
    ensures ConnInv(g, Returned(c, n), Unread(streams[id := Paid(streams[id], n, cancel)]))
  {
    UnreadPut(streams, id, Paid(streams[id], n, cancel));
  }

  lemma RoomBefore(g: Config, s: State, step: Step)
    requires Enabled(s, step) && Room(g, Do(g, s, step).conn)
    ensures Room(g, s.conn)
  {}

  /** The steps that leave the connection as it is. */
  lemma QuietSteps(g: Config, s: State, step: Step)
    requires StreamsInv(g, s.streams) && Enabled(s, step) && ConnInv(g, s.conn, Unread(s.streams))
    requires !step.Data? && !step.Orphan? && !step.Refresh? && !step.Measure? && !step.Return?
    ensures ConnInv(g, Do(g, s, step).conn, Unread(Do(g, s, step).streams))
  {
    match step
    case Open(id) => QuietKeeps(g, s.conn, s.streams, id, NewStream(g));
    case Find(id, last) => QuietKeeps(g, s.conn, s.streams, id, s.streams[id].(known := !last));
    case Written => QuietKeeps(g, s.conn, s.streams, s.loop.id, AfterWrite(s.streams[s.loop.id]));
    case ReadPipe(id, n) => QuietKeeps(g, s.conn, s.streams, id, AfterRead(s.streams[id], n));
    case EndRead(id) => QuietKeeps(g, s.conn, s.streams, id, s.streams[id].(reading := false));
    case Break(id) => QuietKeeps(g, s.conn, s.streams, id, Broken(s.streams[id]));
    case Forget(id) => QuietKeeps(g, s.conn, s.streams, id, s.streams[id].(known := false));
    case Reset(id) => QuietKeeps(g, s.conn, s.streams, id, s.streams[id].(reset := true));
  }

  /** The steps after which more may be unread. */
  lemma FillSteps(g: Config, s: State, step: Step)
    requires Checked(g) && StreamsInv(g, s.streams) && Enabled(s, step) && Room(g, s.conn)
    requires ConnInv(g, s.conn, Unread(s.streams)) && (step.Data? || step.Measure?)
    ensures ConnInv(g, Do(g, s, step).conn, Unread(Do(g, s, step).streams))
  {
    if step.Data? {
      FrameKeeps(g, s.conn, s.streams, s.loop.id, step.length, step.pad);
    } else {
      MeasureKeeps(g, s.conn, s.streams, step.id);
    }
  }

  lemma OrphanStep(g: Config, s: State, id: nat, length: nat)
    requires Enabled(s, Orphan(id, length)) && Room(g, Orphaned(s.conn, length))
    requires ConnInv(g, s.conn, Unread(s.streams))
    ensures var t := Do(g, s, Orphan(id, length)); ConnInv(g, t.conn, Unread(t.streams))
  {
    OrphanKeeps(g, s.conn, Unread(s.streams), length);
    QuietKeeps(g, Orphaned(s.conn, length), s.streams, id, s.streams[id].(peer := s.streams[id].peer - length));
  }

  lemma RefreshStep(g: Config, s: State, id: nat, ok: bool)
    requires Checked(g) && Enabled(s, Refresh(id, ok)) && ConnInv(g, s.conn, Unread(s.streams))
    ensures var t := Do(g, s, Refresh(id, ok)); ConnInv(g, t.conn, Unread(t.streams))
  {
    RefreshedKeeps(g, s.conn, Unread(s.streams));
    QuietKeeps(g, ConnRefreshed(g, s.conn), s.streams, id, Refreshed(g, s.streams[id], ok));
  }

  lemma ConnSteps(g: Config, s: State, step: Step)
    requires Checked(g) && StreamsInv(g, s.streams) && Enabled(s, step) && Room(g, Do(g, s, step).conn)
    requires ConnInv(g, s.conn, Unread(s.streams))
    ensures ConnInv(g, Do(g, s, step).conn, Unread(Do(g, s, step).streams))
  {
    RoomBefore(g, s, step);
    match step
    case Orphan(id, length) => OrphanStep(g, s, id, length);
    case Refresh(id, ok) => RefreshStep(g, s, id, ok);
    case Return(id, n, cancel) => ReturnKeeps(g, s.conn, s.streams, id, n, cancel);
    case Data(_, _) => FillSteps(g, s, step);
    case Measure(_) => FillSteps(g, s, step);
    case _ => QuietSteps(g, s, step);
  }

  lemma {:induction false} ConnRuns(g: Config, states: seq<State>, steps: seq<Step>, k: nat)
    requires Checked(g) && Run(g, states, steps) && k < |states| && Room(g, states[k].conn)
    ensures ConnInv(g, states[k].conn, Unread(states[k].streams))
  {
    if k > 0 {
      assert Follows(g, states, steps, k - 1);
      RoomBefore(g, states[k - 1], steps[k - 1]);
      ConnRuns(g, states, steps, k - 1);
      StreamRuns(g, states, steps, k - 1);
      ConnSteps(g, states[k - 1], steps[k - 1]);
    }
  }

  /** The connection's window starts as what the peer was told exactly when the sum fits in 32 bits;
      else it is negative, and the first frame would be refused. */
  lemma FirstWindowExact(g: Config)
    requires Checked(g)
    ensures FirstWindow(g) == NewConn(g).granted <==> g.connFlow <= MAX - INITIAL_WINDOW
    ensures FirstWindow(g) < 0 <==> g.connFlow > MAX - INITIAL_WINDOW
  {}

  lemma {:induction false} NothingReturned(g: Config, states: seq<State>, steps: seq<Step>, k: nat)
    requires Run(g, states, steps) && k < |states|
    requires forall j :: 0 <= j < |steps| ==> !steps[j].Return? && !steps[j].Orphan?
    ensures states[k].conn.returned == 0 && states[k].conn.orphaned == 0
  {
    if k > 0 {
      NothingReturned(g, states, steps, k - 1);
      assert Follows(g, states, steps, k - 1);
    }
  }

  /** With no body closed before its end and no stream cancelled there is always room, if the first
      window had it; the client's window is then the peer's. */
  lemma RoomWithoutCloses(g: Config, states: seq<State>, steps: seq<Step>, k: nat)
    requires Checked(g) && Run(g, states, steps) && k < |states|
    requires forall j :: 0 <= j < |steps| ==> !steps[j].Return? && !steps[j].Orphan?
    ensures Room(g, states[k].conn) <==> g.connFlow <= MAX - INITIAL_WINDOW
    ensures Room(g, states[k].conn) ==> states[k].conn.window == PeerWindow(states[k].conn)
  {
    NothingReturned(g, states, steps, k);
    if Room(g, states[k].conn) {
      ConnRuns(g, states, steps, k);
    }
  }
}
