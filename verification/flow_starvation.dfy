/** Does the connection ever wait for credit that does not come? Exactly when streams already
    forgotten were sent half of connFlow. */
module FlowStarvation {

  import opened FlowControl
  import opened FlowStreams
  import opened FlowConnection
  import opened FlowMirror

  /** Nothing on its way to a reader, nothing to read, nothing a close could return. */
  predicate Empty(s: Stream) {
    s.transit == 0 && s.buffered == 0 && s.unread == 0 && s.owed == 0
  }

  ghost predicate AllEmpty(streams: map<nat, Stream>) {
    forall id :: id in streams ==> Empty(streams[id])
  }

  /** The peer may send nothing, nobody waits for a byte that came, and a refresh would do nothing. */
  ghost predicate Starved(g: Config, s: State) {
    PeerWindow(s.conn) == 0 && g.connFlow / 2 <= s.conn.window <= MAX && AllEmpty(s.streams)
  }

  lemma StarvedStep(g: Config, s: State, step: Step)
    requires Checked(g) && Starved(g, s) && Enabled(s, step)
    ensures Starved(g, Do(g, s, step))
  {}

  /** From there no run lets the peer send another byte on any stream. */
  lemma {:induction false} StarvedStays(g: Config, states: seq<State>, steps: seq<Step>, j: nat, k: nat)
    requires Checked(g) && Run(g, states, steps) && j <= k < |states| && Starved(g, states[j])
    ensures Starved(g, states[k])
    decreases k
  {
    if j < k {
      StarvedStays(g, states, steps, j, k - 1);
      assert Follows(g, states, steps, k - 1);
      StarvedStep(g, states[k - 1], steps[k - 1]);
    }
  }

  // ---- A run that starves ----

  /** The largest frame every receiver allows (section 6.5.2 of RFC 7540), or the stream's window. */
  const SMALLEST_MAX_FRAME := 16384

  function Chunk(g: Config, left: nat): nat
    requires Checked(g)
  {
    Min(left, Min(g.streamFlow, SMALLEST_MAX_FRAME))
  }

  /** Equal but for the history of unread bytes. */
  predicate SameConn(c: Conn, d: Conn) {
    c.(peak := d.peak) == d
  }

  predicate Below(streams: map<nat, Stream>, id: nat) {
    forall i :: i in streams ==> i < id
  }

  /** Between two requests: the run so far left nothing behind. */
  ghost predicate Rest(g: Config, s: State, id: nat) {
    Reachable(g, s) && s.loop.Idle? && AllEmpty(s.streams) && Below(s.streams, id)
  }

  /** A request cancelled before any of its body came. */
  function Cancelled(g: Config): Stream {
    Broken(Paid(Measured(NewStream(g)), 0, true)).(known := false)
  }

  /** A new stream, closed at once as far as its pipe. */
  lemma CloseNew(g: Config, s: State, id: nat) returns (t: State)
    requires Checked(g) && Rest(g, s, id) && Int32(s.conn.window)
    ensures Reachable(g, t) && t.loop.Idle? && SameConn(s.conn, t.conn)
    ensures t.streams == s.streams[id := Paid(Measured(NewStream(g)), 0, true)]
  {
    var s0 := Do(g, s, Open(id));
    Extend(g, s, Open(id));
    var s1 := Do(g, s0, Measure(id));
    Extend(g, s0, Measure(id));
    t := Do(g, s1, Return(id, 0, true));
    Extend(g, s1, Return(id, 0, true));
  }

  lemma CancelOne(g: Config, s: State, id: nat) returns (t: State)
    requires Checked(g) && Rest(g, s, id) && Int32(s.conn.window)
    ensures Rest(g, t, id + 2) && SameConn(s.conn, t.conn) && t.streams == s.streams[id := Cancelled(g)]
  {
    var u := CloseNew(g, s, id);
    var v := Do(g, u, Break(id));
    Extend(g, u, Break(id));
    t := Do(g, v, Forget(id));
    Extend(g, v, Forget(id));
  }

  /** One cancelled request whose peer had sent n bytes. */
  lemma OrphanOne(g: Config, s: State, id: nat, n: nat) returns (t: State)
    requires Checked(g) && Rest(g, s, id) && 0 <= s.conn.window <= MAX - n
    requires n <= PeerWindow(s.conn) && n <= g.streamFlow && n <= MAX_FRAME
    ensures Rest(g, t, id + 2) && SameConn(Orphaned(s.conn, n), t.conn)
  {
    var u := CancelOne(g, s, id);
    t := Do(g, u, Orphan(id, n));
    Extend(g, u, Orphan(id, n));
  }

  /** As many as it takes for k bytes. */
  lemma {:induction false} OrphanMany(g: Config, s: State, id: nat, k: nat) returns (t: State, next: nat)
    requires Checked(g) && Rest(g, s, id) && 0 <= s.conn.window <= MAX - k
    requires PeerWindow(s.conn) >= SMALLEST_MAX_FRAME
    ensures Rest(g, t, next) && t.conn.window == s.conn.window + k && PeerWindow(t.conn) == PeerWindow(s.conn)
    ensures t.conn.orphaned == s.conn.orphaned + k && t.conn.returned == s.conn.returned
    decreases k
  {
    t, next := s, id;
    if k > 0 {
      var u := OrphanOne(g, s, id, Chunk(g, k));
      t, next := OrphanMany(g, u, id + 2, k - Chunk(g, k));
    }
  }

  /** A body of one frame, in its pipe. */
  lemma FrameOne(g: Config, s: State, id: nat, n: nat) returns (t: State)
    requires Checked(g) && Reachable(g, s) && s.loop.Idle? && id !in s.streams && 0 <= s.conn.window <= MAX
    requires n <= PeerWindow(s.conn) && n <= g.streamFlow && n <= MAX_FRAME && n <= s.conn.window
    ensures Reachable(g, t) && t.loop.Idle? && SameConn(Taken(s.conn, n, 0), t.conn)
    ensures t.streams == s.streams[id := AfterWrite(Arrived(NewStream(g).(known := false), n, 0))]
  {
    var s0 := Do(g, s, Open(id));
    Extend(g, s, Open(id));
    var s1 := Do(g, s0, Find(id, true));
    Extend(g, s0, Find(id, true));
    var s2 := Do(g, s1, Data(n, 0));
    Extend(g, s1, Data(n, 0));
    t := Do(g, s2, Written);
    Extend(g, s2, Written);
  }

  /** A body of one frame, read and refreshed, which leaves the window high enough. */
  lemma BodyOne(g: Config, s: State, id: nat, n: nat) returns (t: State)
    requires Checked(g) && Rest(g, s, id) && 0 < n <= PeerWindow(s.conn) && n <= g.streamFlow && n <= MAX_FRAME
    requires g.connFlow / 2 + n <= s.conn.window <= MAX
    ensures Rest(g, t, id + 2) && SameConn(Taken(s.conn, n, 0), t.conn)
  {
    var u := FrameOne(g, s, id, n);
    var v := Do(g, u, ReadPipe(id, n));
    Extend(g, u, ReadPipe(id, n));
    t := Do(g, v, Refresh(id, true));
    Extend(g, v, Refresh(id, true));
  }

  /** Bodies until the peer has nothing left. */
  lemma {:induction false} BodyMany(g: Config, s: State, id: nat) returns (t: State)
    requires Checked(g) && Rest(g, s, id) && 0 <= PeerWindow(s.conn)
    requires g.connFlow / 2 + PeerWindow(s.conn) <= s.conn.window <= MAX
    ensures Reachable(g, t) && Starved(g, t)
    ensures t.conn.orphaned == s.conn.orphaned && t.conn.returned == s.conn.returned
    decreases PeerWindow(s.conn)
  {
    t := s;
    if PeerWindow(s.conn) > 0 {
      var u := BodyOne(g, s, id, Chunk(g, PeerWindow(s.conn)));
      t := BodyMany(g, u, id + 2);
    }
  }

  /** A run whose additions fit ends in a starved state with so many bytes orphaned. */
  ghost predicate StarvesWith(g: Config, states: seq<State>, steps: seq<Step>, k: nat) {
    && Run(g, states, steps) && AllFit(g, states, steps, |steps|)
    && states[|steps|].conn.orphaned == k && Starved(g, states[|steps|])
  }

  /** The threshold: for any k bytes that leave room, some run with exactly k bytes orphaned starves if
      and only if they are half of connFlow or more. */
  lemma OrphansStarve(g: Config, k: nat)
    requires Checked(g) && g.connFlow + INITIAL_WINDOW + k <= MAX
    ensures (exists states, steps :: StarvesWith(g, states, steps, k)) <==> g.connFlow / 2 <= k
  {
    if states, steps :| StarvesWith(g, states, steps, k) {
      SoundRuns(g, states, steps, |steps|);
    }
    if g.connFlow / 2 <= k {
      Start(g);
      FirstWindowExact(g);
      var s, id := OrphanMany(g, Initial(g), 1, k);
      var t := BodyMany(g, s, id);
      var states, steps :| Run(g, states, steps) && states[|steps|] == t;
      RoomFits(g, states, steps, |steps|);
      assert StarvesWith(g, states, steps, k);
    }
  }
}
