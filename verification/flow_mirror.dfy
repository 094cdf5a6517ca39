/** Both ends of a connection keep the same window, exactly while every addition nobody checks fits. */
module FlowMirror {
  import opened FlowControl
  import opened FlowStreams
  import opened FlowConnection

  /** The client's window is the peer's and the orphaned bytes. */
  predicate Mirrors(c: Conn) {
    c.window == PeerWindow(c) + c.orphaned
  }

  /** The window can hold what a close returns or a forgotten stream's frame gives back: the client adds
      it without a look at the result, and tells the peer. */
  predicate Fits(s: State, step: Step) {
    match step
    case Return(_, n, _) => s.conn.window + n <= MAX
    case Orphan(_, length) => s.conn.window + length <= MAX
    case _ => true
  }

  predicate Sound(c: Conn) {
    Mirrors(c) && 0 <= PeerWindow(c) && c.window <= MAX
  }

  lemma TakenSound(c: Conn, length: nat, refund: nat)
    requires Sound(c) && refund <= length <= PeerWindow(c)
    ensures Sound(Taken(c, length, refund))
  {}

  lemma RefreshedSound(g: Config, c: Conn)
    requires Checked(g) && Sound(c)
    ensures Sound(ConnRefreshed(g, c))
    ensures ConnAdd(g, c.window) == if c.window < g.connFlow / 2 then g.connFlow - c.window else 0
  {}

  lemma ReturnedSound(c: Conn, n: nat)
    requires Sound(c)
    ensures Mirrors(Returned(c, n)) <==> c.window + n <= MAX
    ensures c.window + n <= MAX ==> Sound(Returned(c, n))
  {}

  lemma OrphanedSound(c: Conn, length: nat)
    requires Sound(c)
    ensures Mirrors(Orphaned(c, length)) <==> c.window + length <= MAX
    ensures c.window + length <= MAX ==> Sound(Orphaned(c, length))
  {}

  lemma MirrorStep(g: Config, s: State, step: Step)
    requires Checked(g) && Enabled(s, step) && Sound(s.conn)
    ensures Mirrors(Do(g, s, step).conn) <==> Fits(s, step)
    ensures Fits(s, step) ==> Sound(Do(g, s, step).conn)
  {
    match step
    case Data(length, pad) => TakenSound(s.conn, length, Refund(s.streams[s.loop.id], length, pad));
    case Orphan(_, length) => OrphanedSound(s.conn, length);
    case Refresh(_, _) => RefreshedSound(g, s.conn);
    case Return(_, n, _) => ReturnedSound(s.conn, n);
    case _ =>
  }

  /** The first window fits, and every such addition of the first k steps. */
  ghost predicate AllFit(g: Config, states: seq<State>, steps: seq<Step>, k: nat)
    requires k <= |steps| < |states|
  {
    g.connFlow <= MAX - INITIAL_WINDOW && forall j :: 0 <= j < k ==> Fits(states[j], steps[j])
  }

  lemma {:induction false} SoundRuns(g: Config, states: seq<State>, steps: seq<Step>, k: nat)
    requires Checked(g) && Run(g, states, steps) && k <= |steps| && AllFit(g, states, steps, k)
    ensures Sound(states[k].conn)
  {
    if k > 0 {
      SoundRuns(g, states, steps, k - 1);
      assert Follows(g, states, steps, k - 1);
      MirrorStep(g, states[k - 1], steps[k - 1]);
    } else {
      FirstWindowExact(g);
    }
  }

  lemma {:induction false} MirrorsFit(g: Config, states: seq<State>, steps: seq<Step>, k: nat)
    requires Checked(g) && Run(g, states, steps) && k <= |steps|
    requires forall j :: 0 <= j <= k ==> Mirrors(states[j].conn)
    ensures AllFit(g, states, steps, k)
  {
    if k > 0 {
      MirrorsFit(g, states, steps, k - 1);
      SoundRuns(g, states, steps, k - 1);
      assert Follows(g, states, steps, k - 1);
      MirrorStep(g, states[k - 1], steps[k - 1]);
    } else {
      FirstWindowExact(g);
    }
  }

  /** All through a run the client's window is the peer's and the orphaned bytes exactly when the first
      window fits in 32 bits and every unchecked addition finds room: the guard of the addition tells. */
  lemma MirrorExact(g: Config, states: seq<State>, steps: seq<Step>)
    requires Checked(g) && Run(g, states, steps)
    ensures (forall k :: 0 <= k < |states| ==> Mirrors(states[k].conn)) <==> AllFit(g, states, steps, |steps|)
  {
    if forall k :: 0 <= k < |states| ==> Mirrors(states[k].conn) {
      MirrorsFit(g, states, steps, |steps|);
    }
    if AllFit(g, states, steps, |steps|) {
      forall k | 0 <= k < |states|
        ensures Mirrors(states[k].conn)
      {
        SoundRuns(g, states, steps, k);
      }
    }
  }

  /** While the additions fit, neither window passes 2^31-1, and every frame a peer sends that keeps to
      its own counts is one both windows allow. */
  lemma PeerNeverRefused(g: Config, states: seq<State>, steps: seq<Step>, k: nat)
    requires Checked(g) && Run(g, states, steps) && k <= |steps| && AllFit(g, states, steps, k)
    ensures var c := states[k].conn; 0 <= PeerWindow(c) <= c.window <= MAX && Mirrors(c)
    ensures k < |steps| && steps[k].Data? ==>
              steps[k].length <= states[k].conn.window
              && states[k].loop.Found? && states[k].loop.id in states[k].streams
              && steps[k].length <= states[k].streams[states[k].loop.id].window
  {
    SoundRuns(g, states, steps, k);
    StreamRuns(g, states, steps, k);
    if k < |steps| {
      assert Follows(g, states, steps, k);
    }
  }

  /** Nor does the guard of a read's refresh ever refuse. */
  lemma GuardNeverFires(g: Config, states: seq<State>, steps: seq<Step>, k: nat)
    requires Checked(g) && Run(g, states, steps) && k <= |steps| && AllFit(g, states, steps, k)
    ensures var c := states[k].conn;
            ConnAdd(g, c.window) == if c.window < g.connFlow / 2 then g.connFlow - c.window else 0
  {
    SoundRuns(g, states, steps, k);
    RefreshedSound(g, states[k].conn);
  }

  // ---- When they fit ----

  lemma {:induction false} RoomEarlier(g: Config, states: seq<State>, steps: seq<Step>, j: nat, k: nat)
    requires Run(g, states, steps) && j <= k <= |steps| && Room(g, states[k].conn)
    ensures Room(g, states[j].conn)
    decreases k
  {
    if j < k {
      assert Follows(g, states, steps, k - 1);
      RoomBefore(g, states[k - 1], steps[k - 1]);
      RoomEarlier(g, states, steps, j, k - 1);
    }
  }

  /** They do where there is room for all that closes return and forgotten streams are sent. */
  lemma RoomFits(g: Config, states: seq<State>, steps: seq<Step>, k: nat)
    requires Checked(g) && Run(g, states, steps) && k <= |steps| && Room(g, states[k].conn)
    ensures AllFit(g, states, steps, k)
  {
    forall j | 0 <= j <= k
      ensures Mirrors(states[j].conn)
    {
      RoomEarlier(g, states, steps, j, k);
      ConnRuns(g, states, steps, j);
    }
    MirrorsFit(g, states, steps, k);
  }

  // ---- What a read does for the peer ----

  predicate Opens(g: Config, c: Conn, d: Conn) {
    && (PeerWindow(d) == 0 <==> PeerWindow(c) == 0 && c.orphaned >= g.connFlow / 2)
    && PeerWindow(d) >= g.connFlow / 2 - c.orphaned
  }

  lemma RefreshOpens(g: Config, c: Conn)
    requires Checked(g) && Sound(c)
    ensures Opens(g, c, ConnRefreshed(g, c))
  {
    RefreshedSound(g, c);
  }

  /** A read leaves the peer's window shut exactly when it found it shut and half of connFlow orphaned;
      it leaves at least half of connFlow, less the orphaned bytes. */
  lemma ReadReopens(g: Config, states: seq<State>, steps: seq<Step>, k: nat)
    requires Checked(g) && Run(g, states, steps) && k < |steps| && steps[k].Refresh? && AllFit(g, states, steps, k)
    ensures Opens(g, states[k].conn, states[k + 1].conn)
  {
    SoundRuns(g, states, steps, k);
    RefreshOpens(g, states[k].conn);
    assert Follows(g, states, steps, k);
  }
}
