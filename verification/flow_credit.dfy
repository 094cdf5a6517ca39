/** When credit is given, and how much: over every run, for the streams and for the connection. */
module FlowCredit {
  import opened FlowControl
  import opened FlowStreams
  import opened FlowConnection
  import opened FlowMirror

  // ---- Streams ----

  /** How many bytes neither the window nor the pipe holds before a stream is credited: 16 kB for a window
      below a megabyte, half of a larger one. */
  function Threshold(streamFlow: int): int {
    if streamFlow < 0x10_0000 then 0x4000 else streamFlow / 2
  }

  lemma DueExactly(g: Config, unsent: int)
    ensures Due(g, unsent) <==> unsent > Threshold(g.streamFlow)
  {}

  /** The stream after a read without error: full again but for what the pipe holds, or as it was. */
  predicate CreditedOrNot(g: Config, s: Stream, t: Stream) {
    var unsent := g.streamFlow - s.window - PipeLen(s);
    if unsent > Threshold(g.streamFlow) then
      t.window == g.streamFlow - PipeLen(s) && t.peer - s.peer == t.credited - s.credited == unsent
    else t.window == s.window && t.peer == s.peer && t.credited == s.credited
  }

  lemma RefreshCredits(g: Config, s: Stream)
    requires Checked(g) && StreamInv(g, s)
    ensures CreditedOrNot(g, s, Refreshed(g, s, true))
  {
    DueExactly(g, Unsent(g, s));
    DueInFull(g, s);
  }

  lemma OtherCredits(g: Config, s: State, step: Step, id: nat)
    requires Enabled(s, step) && id in s.streams && step != Refresh(id, true)
    ensures id in Do(g, s, step).streams && Do(g, s, step).streams[id].credited == s.streams[id].credited
  {}

  /** In every run a stream is credited by nothing but its reads without error, and by those exactly when more
      than the threshold has gone; then its window is filled up in full. */
  lemma StreamCredit(g: Config, states: seq<State>, steps: seq<Step>, k: nat, id: nat)
    requires Checked(g) && Run(g, states, steps) && k < |steps| && id in states[k].streams
    ensures id in states[k + 1].streams
    ensures var s, t := states[k].streams[id], states[k + 1].streams[id];
            if steps[k] == Refresh(id, true) then CreditedOrNot(g, s, t) else t.credited == s.credited
  {
    assert Follows(g, states, steps, k);
    StreamRuns(g, states, steps, k);
    if steps[k] == Refresh(id, true) {
      RefreshCredits(g, states[k].streams[id]);
    } else {
      OtherCredits(g, states[k], steps[k], id);
    }
  }

  // ---- The connection ----

  /** What a step gives the peer, or takes from it: a frame costs its bytes but for padding, and nothing where
      its stream was reset or forgotten; a close gives back what it returns; a read fills up a window less
      than half full. */
  function Gain(g: Config, s: State, step: Step): int
    requires Enabled(s, step)
  {
    match step
    case Data(length, pad) => if s.streams[s.loop.id].reset then 0 else pad - length
    case Return(_, n, _) => n
    case Refresh(_, _) => if s.conn.window < g.connFlow / 2 then g.connFlow - s.conn.window else 0
    case _ => 0
  }

  lemma StepGains(g: Config, s: State, step: Step)
    requires Checked(g) && Sound(s.conn) && Enabled(s, step)
    ensures PeerWindow(Do(g, s, step).conn) == PeerWindow(s.conn) + Gain(g, s, step)
  {
    if step.Refresh? {
      RefreshedSound(g, s.conn);
    }
  }

  /** The sum over the first k steps. */
  function Gains(g: Config, states: seq<State>, steps: seq<Step>, k: nat): int
    requires k <= |steps| < |states| && forall j :: 0 <= j < k ==> Enabled(states[j], steps[j])
  {
    if k == 0 then 0 else Gains(g, states, steps, k - 1) + Gain(g, states[k - 1], steps[k - 1])
  }

  lemma RunEnabled(g: Config, states: seq<State>, steps: seq<Step>)
    requires Run(g, states, steps)
    ensures forall j :: 0 <= j < |steps| ==> Enabled(states[j], steps[j])
  {
    forall j | 0 <= j < |steps| ensures Enabled(states[j], steps[j]) {
      assert Follows(g, states, steps, j);
    }
  }

  /** What the peer may send is what it was told at first and all it has gained since. */
  lemma {:induction false} PeerWindowIs(g: Config, states: seq<State>, steps: seq<Step>, k: nat)
    requires Checked(g) && Run(g, states, steps) && k <= |steps| && AllFit(g, states, steps, k)
    ensures forall j :: 0 <= j < |steps| ==> Enabled(states[j], steps[j])
    ensures PeerWindow(states[k].conn) == g.connFlow + 65535 + Gains(g, states, steps, k)
  {
    RunEnabled(g, states, steps);
    if k > 0 {
      PeerWindowIs(g, states, steps, k - 1);
      SoundRuns(g, states, steps, k - 1);
      assert Follows(g, states, steps, k - 1);
      StepGains(g, states[k - 1], steps[k - 1]);
    }
  }

  // ---- Bytes ----

  /** Bytes the first k steps read from a stream. */
  function BytesRead(steps: seq<Step>, k: nat, id: nat): nat
    requires k <= |steps|
  {
    if k == 0 then 0
    else
      BytesRead(steps, k - 1, id)
        + if steps[k - 1].ReadPipe? && steps[k - 1].id == id then steps[k - 1].n else 0
  }

  lemma {:induction false} NoneReadYet(g: Config, states: seq<State>, steps: seq<Step>, k: nat, id: nat)
    requires Run(g, states, steps) && k <= |steps| && id !in states[k].streams
    ensures BytesRead(steps, k, id) == 0
  {
    if k > 0 {
      assert Follows(g, states, steps, k - 1);
      assert states[k - 1].streams.Keys <= states[k].streams.Keys;
      NoneReadYet(g, states, steps, k - 1, id);
    }
  }

  lemma StepReads(g: Config, s: State, step: Step, id: nat)
    requires Enabled(s, step) && id in s.streams
    ensures id in Do(g, s, step).streams
    ensures Do(g, s, step).streams[id].consumed
            == s.streams[id].consumed + if step.ReadPipe? && step.id == id then step.n else 0
  {}

  /** The bytes a stream's conservation counts as read are those its reads returned. */
  lemma {:induction false} ConsumedIsRead(g: Config, states: seq<State>, steps: seq<Step>, k: nat, id: nat)
    requires Run(g, states, steps) && k <= |steps| && id in states[k].streams
    ensures states[k].streams[id].consumed == BytesRead(steps, k, id)
  {
    if k > 0 {
      assert Follows(g, states, steps, k - 1);
      if id in states[k - 1].streams {
        StepReads(g, states[k - 1], steps[k - 1], id);
        ConsumedIsRead(g, states, steps, k - 1, id);
      } else {
        NoneReadYet(g, states, steps, k - 1, id);
      }
    }
  }
}
