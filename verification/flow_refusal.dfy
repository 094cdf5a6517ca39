/** Past what 32 bits hold, a peer that keeps to its counts is refused. */
module FlowRefusal {
  import opened FlowControl
  import opened FlowStreams
  import opened FlowConnection
  import opened FlowMirror
  import opened FlowStarvation

  /** A frame of one byte may come that the connection's window does not allow: the client then ends the
      connection with a flow-control error. */
  ghost predicate Refusing(g: Config, s: State) {
    Reachable(g, s) && Enabled(s, Data(1, 0)) && s.conn.window < 1
  }

  /** A body closed with bytes unread, between two closes. */
  ghost predicate ClosedBody(g: Config, s: State, id: nat, unread: nat) {
    && Reachable(g, s) && s.loop.Idle? && Below(s.streams, id + 1) && id in s.streams
    && s.streams[id].closed && s.streams[id].unread == unread && s.streams[id].owed == 0
  }

  /** A body of a bytes closed before any is read. */
  lemma FirstClose(g: Config, a: nat) returns (t: State)
    requires Checked(g) && g.connFlow <= MAX - INITIAL_WINDOW
    requires 0 < a <= g.streamFlow && a <= MAX_FRAME && a <= g.connFlow + INITIAL_WINDOW
    ensures ClosedBody(g, t, 1, a) && Sound(t.conn) && t.conn.orphaned == 0
  {
    Start(g);
    FirstWindowExact(g);
    var s := FrameOne(g, Initial(g), 1, a);
    var s0 := Do(g, s, Measure(1));
    Extend(g, s, Measure(1));
    var s1 := Do(g, s0, Return(1, a, true));
    Extend(g, s0, Return(1, a, true));
    t := Do(g, s1, Break(1));
    Extend(g, s1, Break(1));
  }

  /** Closed again: what nobody will read is returned once more. */
  lemma CloseAgain(g: Config, s: State, id: nat, unread: nat) returns (t: State)
    requires Checked(g) && ClosedBody(g, s, id, unread)
    ensures ClosedBody(g, t, id, unread) && SameConn(Returned(s.conn, unread).(again := t.conn.again), t.conn)
  {
    var u := Do(g, s, Measure(id));
    Extend(g, s, Measure(id));
    t := Do(g, u, Return(id, unread, true));
    Extend(g, u, Return(id, unread, true));
  }

  /** And again, until the window cannot hold it: the peer is told, the client keeps its window. */
  lemma {:induction false} ClosesPast(g: Config, s: State, id: nat, unread: nat) returns (t: State)
    requires Checked(g) && ClosedBody(g, s, id, unread) && unread > 0 && Sound(s.conn) && s.conn.orphaned == 0
    ensures ClosedBody(g, t, id, unread) && t.conn.orphaned == 0
    ensures 0 <= t.conn.window <= MAX < PeerWindow(t.conn)
    decreases MAX - s.conn.window
  {
    t := CloseAgain(g, s, id, unread);
    ReturnedSound(s.conn, unread);
    if s.conn.window + unread <= MAX {
      t := ClosesPast(g, t, id, unread);
    }
  }

  /** Closing one body over and over takes the peer's window past 2^31-1 (section 6.9.1 of RFC 7540),
      whatever the windows and however little was unread. */
  lemma PeerWindowOverflows(g: Config, a: nat) returns (t: State)
    requires Checked(g) && g.connFlow <= MAX - INITIAL_WINDOW
    requires 0 < a <= g.streamFlow && a <= MAX_FRAME && a <= g.connFlow + INITIAL_WINDOW
    ensures ClosedBody(g, t, 1, a) && t.conn.orphaned == 0 && 0 <= t.conn.window <= MAX < PeerWindow(t.conn)
  {
    var s := FirstClose(g, a);
    t := ClosesPast(g, s, 1, a);
  }

  /** Bodies nobody reads, until the client's window is used up. */
  lemma {:induction false} UseUp(g: Config, s: State, id: nat) returns (t: State, next: nat)
    requires Checked(g) && Reachable(g, s) && s.loop.Idle? && Below(s.streams, id)
    requires 0 <= s.conn.window <= MAX && s.conn.window < PeerWindow(s.conn)
    ensures Reachable(g, t) && t.loop.Idle? && Below(t.streams, next)
    ensures t.conn.window == 0 < PeerWindow(t.conn)
    decreases s.conn.window
  {
    t, next := s, id;
    if s.conn.window > 0 {
      var u := FrameOne(g, s, id, Chunk(g, s.conn.window));
      t, next := UseUp(g, u, id + 2);
    }
  }

  lemma OneByteFrame(g: Config, s: State, id: nat) returns (t: State)
    requires Checked(g) && Reachable(g, s) && s.loop.Idle? && Below(s.streams, id)
    requires s.conn.window < 1 <= PeerWindow(s.conn)
    ensures Refusing(g, t)
  {
    var u := Do(g, s, Open(id));
    Extend(g, s, Open(id));
    t := Do(g, u, Find(id, false));
    Extend(g, u, Find(id, false));
  }

  /** For every configuration some run refuses a peer that keeps to its counts: at once if the first
      window does not fit, else after enough closes of one body. */
  lemma SomePeerIsRefused(g: Config)
    requires Checked(g)
    ensures exists s :: Refusing(g, s)
  {
    FirstWindowExact(g);
    if g.connFlow > MAX - INITIAL_WINDOW {
      Start(g);
      var t := OneByteFrame(g, Initial(g), 1);
    } else {
      var s := PeerWindowOverflows(g, 1);
      var u, next := UseUp(g, s, 3);
      var t := OneByteFrame(g, u, next);
    }
  }
}
