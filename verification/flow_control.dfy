/** The receive windows of an HTTP/2 connection and its streams, as the patched client keeps them.
    The read loop, the readers of the bodies and their closing interleave. */
module FlowControl {

  const MAX: int := 0x7fff_ffff
  const TWO_32: int := 0x1_0000_0000

  /** A 32-bit sum wraps. */
  function Wrap(n: int): int {
    var r := n % TWO_32;
    if r > MAX then r - TWO_32 else r
  }

  predicate Int32(n: int) {
    -MAX - 1 <= n <= MAX
  }

  /** The window after flow.add. */
  function Added(n: int, k: int): int {
    if Int32(n + k) then n + k else n
  }

  /** A window: what the peer may still send. */
  class Flow {
    var n: int

    constructor ()
      ensures n == 0
    {
      n := 0;
    }

    method Take(k: int)
      requires k <= n
      modifies this
      ensures n == old(n) - k
    {
      n := n - k;
    }

    /** flow.add: the comparison of signs refuses exactly the sums 32 bits cannot hold. */
    method Add(k: int) returns (ok: bool)
      requires Int32(n) && Int32(k)
      modifies this
      ensures ok == Int32(old(n) + k)
      ensures n == Added(old(n), k) && Int32(n)
    {
      var sum := Wrap(n + k);
      if (sum > k) == (n > 0) {
        n := sum;
        return true;
      }
      ok := false;
    }
  }

  /** Both at most 2^31-1, as the client checks when it connects. */
  datatype Config = Config(connFlow: int, streamFlow: int)

  predicate Checked(g: Config) {
    0 < g.connFlow <= MAX && 0 < g.streamFlow <= MAX
  }

  const INITIAL_WINDOW := 65535
  const SMALL_WINDOW := 1048576
  const AGGRESSIVE := 16384
  const MIN_REFRESH := 4096
  const MAX_FRAME := 0xff_ffff

  predicate Due(g: Config, unsent: int) {
    if g.streamFlow < SMALL_WINDOW then unsent > AGGRESSIVE
    else unsent > MIN_REFRESH && unsent > g.streamFlow / 2
  }

  /** What a read gives back to the connection: nothing if the window could not hold it. */
  function ConnAdd(g: Config, window: int): int {
    var add := Wrap(g.connFlow - window);
    if window < g.connFlow / 2 && Int32(window + add) then add else 0
  }

  /** What it gives back to the stream, when the pipe has length bytes. */
  function StreamAdd(g: Config, window: int, length: nat): int {
    var add := Wrap(g.streamFlow - window - length);
    if Due(g, g.streamFlow - window - length) && Int32(window + add) then add else 0
  }

  method RefreshConn(g: Config, conn: Flow) returns (add: int)
    requires Checked(g) && Int32(conn.n)
    modifies conn
    ensures add == ConnAdd(g, old(conn.n)) && conn.n == old(conn.n) + add
  {
    add := 0;
    if conn.n < g.connFlow / 2 {
      add := Wrap(g.connFlow - conn.n);
      var held := conn.Add(add);
      if !held {
        add := 0;
      }
    }
  }

  method RefreshStream(g: Config, stream: Flow, length: nat) returns (add: int)
    requires Checked(g) && Int32(stream.n)
    modifies stream
    ensures add == StreamAdd(g, old(stream.n), length) && stream.n == old(stream.n) + add
  {
    add := 0;
    var unsent := g.streamFlow - stream.n - length;
    if g.streamFlow < SMALL_WINDOW {
      if unsent > AGGRESSIVE {
        add := Wrap(unsent);
        var held := stream.Add(add);
        if !held {
          add := 0;
        }
      }
    } else if unsent > MIN_REFRESH && unsent > g.streamFlow / 2 {
      add := Wrap(unsent);
      var held := stream.Add(add);
      if !held {
        add := 0;
      }
    }
  }

  /** The end of a Read, with the lock: the window updates it sends are what it added. */
  method RefreshWindows(g: Config, conn: Flow, stream: Flow, length: nat, ok: bool)
    returns (connAdd: int, streamAdd: int)
    requires Checked(g) && conn != stream && Int32(conn.n) && Int32(stream.n)
    modifies conn, stream
    ensures connAdd == ConnAdd(g, old(conn.n)) && conn.n == old(conn.n) + connAdd
    ensures streamAdd == (if ok then StreamAdd(g, old(stream.n), length) else 0)
    ensures stream.n == old(stream.n) + streamAdd
  {
    connAdd := RefreshConn(g, conn);
    streamAdd := 0;
    if ok {
      streamAdd := RefreshStream(g, stream, length);
    }
  }

  /** processData with the lock: a frame is taken from both windows if both allow it, else the
      connection ends; padding goes back, and all of it to the connection if the stream was reset. */
  method TakeFrame(conn: Flow, stream: Flow, length: nat, pad: nat, reset: bool) returns (taken: bool)
    requires conn != stream && Int32(conn.n) && Int32(stream.n) && pad <= length
    modifies conn, stream
    ensures taken <==> length <= old(conn.n) && length <= old(stream.n)
    ensures conn.n == if !taken then old(conn.n) else if reset then old(conn.n) else old(conn.n) - length + pad
    ensures stream.n == if !taken then old(stream.n) else old(stream.n) - length + (if reset then 0 else pad)
  {
    taken := conn.n >= length && stream.n >= length;
    if taken {
      conn.Take(length);
      stream.Take(length);
      var refund := if reset then length else pad;
      if refund > 0 {
        var _ := conn.Add(refund);
        if !reset {
          var _ := stream.Add(refund);
        }
      }
    }
  }

  /** A stream's two counts of the window, the client's and the peer's, and where the bytes taken are:
      in transit from the window to the pipe, in the pipe, or left unread in a broken pipe. Owed bytes
      were counted by a Close and not returned yet. The rest is history: bytes read, credited after
      reads, and thrown away. */
  datatype Stream = Stream(
    window: int, peer: int,
    transit: nat, buffered: nat, unread: nat,
    known: bool, reset: bool, closed: bool,
    reading: bool,            // a read has its bytes and has not looked at the windows yet
    measured: bool, owed: nat,
    consumed: nat, credited: int, discarded: nat)

  /** The connection's window, and history: credit given to the peer, bytes the peer sent, those of
      them for streams already forgotten, the most bytes a close could return at any time, bytes closes
      returned, and bytes a second close of one body counted again. */
  datatype Conn = Conn(
    window: int, granted: int, received: nat, orphaned: nat, peak: nat, returned: nat, again: nat)

  /** The read loop between frames, with a frame whose stream it has looked up, or whose bytes it has
      taken and not yet written to the pipe. */
  datatype Loop = Idle | Found(id: nat) | Took(id: nat)

  datatype State = State(conn: Conn, streams: map<nat, Stream>, loop: Loop)

  datatype Step =
    | Open(id: nat)
    | Find(id: nat, last: bool)    // last: the frame ends the stream, which is forgotten
    | Data(length: nat, pad: nat)
    | Written
    | Orphan(id: nat, length: nat)
    | ReadPipe(id: nat, n: nat)
    | Refresh(id: nat, ok: bool)   // ok: the read returned no error
    | EndRead(id: nat)             // the early returns
    | Measure(id: nat)             // Close: pipe.Len
    | Return(id: nat, n: nat, cancel: bool)
    | Break(id: nat)
    | Forget(id: nat)
    | Reset(id: nat)

  // ---- One stream ----

  function NewStream(g: Config): Stream {
    Stream(g.streamFlow, g.streamFlow, 0, 0, 0, true, false, false, false, false, 0, 0, 0, 0)
  }

  function Arrived(s: Stream, length: nat, pad: nat): Stream
    requires pad <= length
  {
    if s.reset then s.(window := s.window - length, peer := s.peer - length, discarded := s.discarded + length)
    else
      s.(window := Added(s.window - length, pad), peer := s.peer - length + pad, transit := s.transit + (length - pad))
  }

  /** A broken pipe only counts what is written to it. */
  function AfterWrite(s: Stream): Stream {
    if s.closed then s.(transit := 0, unread := s.unread + s.transit)
    else s.(transit := 0, buffered := s.buffered + s.transit)
  }

  function AfterRead(s: Stream, n: nat): Stream
    requires n <= s.buffered
  {
    s.(buffered := s.buffered - n, consumed := s.consumed + n, reading := n > 0)
  }

  /** pipe.Len: of a broken pipe, what nobody will read. */
  function PipeLen(s: Stream): nat {
    if s.closed then s.unread else s.buffered
  }

  function Unsent(g: Config, s: Stream): int {
    g.streamFlow - s.window - PipeLen(s)
  }

  function Refreshed(g: Config, s: Stream, ok: bool): Stream {
    var add := if ok then StreamAdd(g, s.window, PipeLen(s)) else 0;
    s.(window := s.window + add, peer := s.peer + add, credited := s.credited + add, reading := false)
  }

  function Measured(s: Stream): Stream {
    s.(measured := true, owed := s.owed + PipeLen(s))
  }

  function Paid(s: Stream, n: nat, cancel: bool): Stream
    requires n <= s.owed
  {
    s.(owed := s.owed - n, reset := s.reset || cancel)
  }

  function Broken(s: Stream): Stream {
    s.(buffered := 0, unread := s.unread + s.buffered, closed := true)
  }

  // ---- The connection ----

  /** The window at the start: two 32-bit numbers added. */
  function FirstWindow(g: Config): int {
    Added(0, Wrap(g.connFlow + INITIAL_WINDOW))
  }

  function NewConn(g: Config): Conn {
    Conn(FirstWindow(g), g.connFlow + INITIAL_WINDOW, 0, 0, 0, 0, 0)
  }

  /** A frame for a stream nobody knows any more: its bytes are credited, and were never taken. */
  function Orphaned(c: Conn, length: nat): Conn {
    c.(window := Added(c.window, length), granted := c.granted + length, received := c.received + length,
       orphaned := c.orphaned + length)
  }

  /** A frame taken, some of it given back at once. */
  function Taken(c: Conn, length: nat, refund: nat): Conn {
    c.(window := Added(c.window - length, refund), granted := c.granted + refund, received := c.received + length)
  }

  function ConnRefreshed(g: Config, c: Conn): Conn {
    c.(window := c.window + ConnAdd(g, c.window), granted := c.granted + ConnAdd(g, c.window))
  }

  /** Unread bytes given back at a close, whether or not the window could hold them. */
  function Returned(c: Conn, n: nat): Conn {
    c.(window := Added(c.window, n), granted := c.granted + n, returned := c.returned + n)
  }

  /** What the peer may send on the connection, once everything on its way has arrived. */
  function PeerWindow(c: Conn): int {
    c.granted - c.received
  }

  // ---- Steps ----

  /** What a close may still give back. */
  function Load(s: Stream): nat {
    if s.measured then s.owed else s.transit + s.buffered
  }

  ghost function Unread(streams: map<nat, Stream>): nat {
    if streams == map[] then 0
    else var id :| id in streams; Load(streams[id]) + Unread(streams - {id})
  }

  function Refund(s: Stream, length: nat, pad: nat): nat
    requires pad <= length
  {
    if s.reset then length else pad
  }

  /** The peer keeps to its own counts and to the frame format; a frame for an odd number never opened
      would end the connection. A read returns at most what is buffered. */
  predicate Enabled(s: State, step: Step) {
    match step
    case Open(id) => id !in s.streams
    case Find(id, _) => s.loop.Idle? && id in s.streams && s.streams[id].known
    case Data(length, pad) =>
      && s.loop.Found? && s.loop.id in s.streams && pad <= length <= MAX_FRAME
      && length <= PeerWindow(s.conn) && length <= s.streams[s.loop.id].peer
    case Written => s.loop.Took? && s.loop.id in s.streams
    case Orphan(id, length) =>
      && s.loop.Idle? && id in s.streams && !s.streams[id].known && length <= MAX_FRAME
      && length <= PeerWindow(s.conn) && length <= s.streams[id].peer
    case ReadPipe(id, n) =>
      id in s.streams && !s.streams[id].reading && !s.streams[id].closed && n <= s.streams[id].buffered
    case Refresh(id, _) => id in s.streams && s.streams[id].reading
    case EndRead(id) => id in s.streams && s.streams[id].reading
    case Measure(id) => id in s.streams
    case Return(id, n, _) => id in s.streams && n <= s.streams[id].owed
    case Break(id) => id in s.streams && s.streams[id].measured
    case Forget(id) => id in s.streams
    case Reset(id) => id in s.streams
  }

  function Set(s: State, id: nat, t: Stream): State {
    s.(streams := s.streams[id := t])
  }

  ghost function Peaked(c: Conn, streams: map<nat, Stream>): Conn {
    if Unread(streams) > c.peak then c.(peak := Unread(streams)) else c
  }

  /** A second close of one body counts what is left in its pipe once more. */
  function Counted(c: Conn, s: Stream): Conn {
    if s.measured then c.(again := c.again + PipeLen(s)) else c
  }

  ghost function Do(g: Config, s: State, step: Step): State
    requires Enabled(s, step)
  {
    match step
    case Open(id) => Set(s, id, NewStream(g))
    case Find(id, last) => Set(s, id, s.streams[id].(known := !last)).(loop := Found(id))
    case Data(length, pad) =>
      var t := s.streams[s.loop.id];
      var streams := s.streams[s.loop.id := Arrived(t, length, pad)];
      State(Peaked(Taken(s.conn, length, Refund(t, length, pad)), streams), streams, Took(s.loop.id))
    case Written => Set(s, s.loop.id, AfterWrite(s.streams[s.loop.id])).(loop := Idle)
    case Orphan(id, length) =>
      Set(s, id, s.streams[id].(peer := s.streams[id].peer - length)).(conn := Orphaned(s.conn, length))
    case ReadPipe(id, n) => Set(s, id, AfterRead(s.streams[id], n))
    case Refresh(id, ok) => Set(s, id, Refreshed(g, s.streams[id], ok)).(conn := ConnRefreshed(g, s.conn))
    case EndRead(id) => Set(s, id, s.streams[id].(reading := false))
    case Measure(id) =>
      var streams := s.streams[id := Measured(s.streams[id])];
      State(Peaked(Counted(s.conn, s.streams[id]), streams), streams, s.loop)
    case Return(id, n, cancel) => Set(s, id, Paid(s.streams[id], n, cancel)).(conn := Returned(s.conn, n))
    case Break(id) => Set(s, id, Broken(s.streams[id]))
    case Forget(id) => Set(s, id, s.streams[id].(known := false))
    case Reset(id) => Set(s, id, s.streams[id].(reset := true))
  }

  // ---- Runs ----

  function Initial(g: Config): State {
    State(NewConn(g), map[], Idle)
  }

  ghost predicate Follows(g: Config, states: seq<State>, steps: seq<Step>, k: nat)
    requires |states| == |steps| + 1 && k < |steps|
  {
    Enabled(states[k], steps[k]) && states[k + 1] == Do(g, states[k], steps[k])
  }

  ghost predicate Run(g: Config, states: seq<State>, steps: seq<Step>) {
    && |states| == |steps| + 1 && states[0] == Initial(g)
    && forall k :: 0 <= k < |steps| ==> Follows(g, states, steps, k)
  }

  ghost predicate Reachable(g: Config, s: State) {
    exists states, steps :: Run(g, states, steps) && states[|steps|] == s
  }

  lemma Start(g: Config)
    ensures Reachable(g, Initial(g))
  {
    var states, steps: seq<Step> := [Initial(g)], [];
    assert Run(g, states, steps) && states[|steps|] == Initial(g);
  }

  lemma Extend(g: Config, s: State, step: Step)
    requires Reachable(g, s) && Enabled(s, step)
    ensures Reachable(g, Do(g, s, step))
  {
    var states, steps :| Run(g, states, steps) && states[|steps|] == s;
    var t := Do(g, s, step);
    forall k | 0 <= k < |steps + [step]|
      ensures Follows(g, states + [t], steps + [step], k)
    {
      assert k < |steps| ==> Follows(g, states, steps, k);
    }
    assert Run(g, states + [t], steps + [step]) && (states + [t])[|steps + [step]|] == t;
  }
}
