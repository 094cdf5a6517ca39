/** The handle an event loop waits on beside the ready queue. Producers, waits that found the
    queue empty and the first use of the handle interleave, any number of each. */
module ReadyEvent {

  const QUEUE_CAPACITY := 1024
  const DRAIN := 64

  /** What the operating system keeps: a pipe's unread bytes, or a manual-reset event. */
  datatype Handle = Pipe(bytes: nat, capacity: nat) | Event(up: bool)

  predicate Raised(h: Handle) {
    match h
    case Pipe(bytes, _) => bytes > 0
    case Event(up) => up
  }

  /** A pipe of no capacity would drop the byte of an empty pipe. */
  predicate Works(h: Handle) {
    h.Pipe? ==> 0 < h.capacity && h.bytes <= h.capacity
  }

  /** raiseReady: one byte, and none if the pipe is full. */
  function Raise(h: Handle): Handle {
    match h
    case Pipe(bytes, capacity) => if bytes < capacity then Pipe(bytes + 1, capacity) else h
    case Event(_) => Event(true)
  }

  /** One read of lowerReady's loop; an event goes down at once. */
  function Lower(h: Handle): Handle {
    match h
    case Pipe(bytes, capacity) => Pipe(if bytes > DRAIN then bytes - DRAIN else 0, capacity)
    case Event(_) => Event(false)
  }

  /** The pipe as the process holds it; each method but LowerReady is one system call. */
  class ReadyPipe {
    var bytes: nat
    const capacity: nat

    function Value(): Handle
      reads this
    {
      Pipe(bytes, capacity)
    }

    constructor (capacity: nat)
      ensures Value() == Pipe(0, capacity)
    {
      this.capacity, bytes := capacity, 0;
    }

    method RaiseReady()
      modifies this
      ensures Value() == Raise(old(Value()))
    {
      if bytes < capacity {
        bytes := bytes + 1;
      }
    }

    method Read() returns (n: nat)
      modifies this
      ensures n <= DRAIN && (n == 0 <==> !Raised(old(Value())))
      ensures Value() == Lower(old(Value())) && old(bytes) == bytes + n
    {
      n := if bytes < DRAIN then bytes else DRAIN;
      bytes := bytes - n;
    }

    /** With nobody writing meanwhile, the loop empties the pipe. */
    method LowerReady()
      modifies this
      ensures Value() == Pipe(0, capacity)
    {
      var n := Read();
      while n > 0
        invariant n == 0 ==> bytes == 0
        decreases bytes + n
      {
        n := Read();
      }
    }
  }

  /** The handle's first use: not begun, past publishing the handle and about to look at the queue,
      about to raise, over. */
  datatype Once = Fresh | Looks | MustRaise | Over

  /** How many threads stand at each point between their steps. */
  datatype State = State(
    queued: nat,      // numbers in the ready queue
    handle: Handle,
    ready: bool,       // the handle exists and is published
    once: Once,
    pushed: nat,      // pushed a number, signalReady not yet past its lock
    signalling: nat,  // in signalReady, found the handle ready, about to raise
    quieting: nat,    // found the queue empty, quietReady not yet past its lock
    draining: nat,    // inside lowerReady
    looking: nat,     // lowered the handle, about to look at the queue
    raising: nat)     // saw a number in the queue, about to raise

  datatype Step =
    | Push
    | Pop
    | FindEmpty
    | Signal
    | RaiseSignal
    | Quiet
    | Drain
    | Look
    | RaiseAgain
    | Create(ok: bool)
    | FirstLook
    | FirstRaise

  predicate Enabled(s: State, step: Step) {
    match step
    case Push => s.queued < QUEUE_CAPACITY
    case Pop => s.queued > 0
    case FindEmpty => s.queued == 0
    case Signal => s.pushed > 0
    case RaiseSignal => s.signalling > 0
    case Quiet => s.quieting > 0
    case Drain => s.draining > 0
    case Look => s.looking > 0
    case RaiseAgain => s.raising > 0
    case Create(_) => s.once == Fresh
    case FirstLook => s.once == Looks
    case FirstRaise => s.once == MustRaise
  }

  function Do(s: State, step: Step): State
    requires Enabled(s, step)
  {
    match step
    case Push => s.(queued := s.queued + 1, pushed := s.pushed + 1)
    case Pop => s.(queued := s.queued - 1)
    case FindEmpty => s.(quieting := s.quieting + 1)
    case Signal => s.(pushed := s.pushed - 1, signalling := s.signalling + if s.ready then 1 else 0)
    case RaiseSignal => s.(handle := Raise(s.handle), signalling := s.signalling - 1)
    case Quiet => s.(quieting := s.quieting - 1, draining := s.draining + if s.ready then 1 else 0)
    case Drain =>
      if s.handle.Pipe? && s.handle.bytes > 0 then s.(handle := Lower(s.handle))
      else s.(handle := Lower(s.handle), draining := s.draining - 1, looking := s.looking + 1)
    case Look => s.(looking := s.looking - 1, raising := s.raising + if s.queued > 0 then 1 else 0)
    case RaiseAgain => s.(handle := Raise(s.handle), raising := s.raising - 1)
    case Create(ok) => s.(ready := ok, once := if ok then Looks else Over)
    case FirstLook => s.(once := if s.queued > 0 then MustRaise else Over)
    case FirstRaise => s.(handle := Raise(s.handle), once := Over)
  }

  predicate Initial(s: State) {
    && s.queued == 0 && s.pushed == 0 && s.signalling == 0 && s.quieting == 0
    && s.draining == 0 && s.looking == 0 && s.raising == 0
    && !s.ready && s.once == Fresh && Works(s.handle) && !Raised(s.handle)
  }

  ghost predicate Reaches(s: State, steps: seq<Step>, t: State)
    decreases |steps|
  {
    if steps == [] then s == t
    else Enabled(s, steps[0]) && Reaches(Do(s, steps[0]), steps[1..], t)
  }

  /** Threads that will still raise the handle, or look at the queue and raise it if a number is there. */
  function Owing(s: State): nat {
    s.pushed + s.signalling + s.draining + s.looking + s.raising
    + if s.once in {Looks, MustRaise} then 1 else 0
  }

  ghost predicate Inv(s: State) {
    && Works(s.handle)
    && (s.ready ==> s.once != Fresh)
    && (s.once in {Looks, MustRaise} ==> s.ready)
    && (!s.ready ==> s.signalling == 0 && s.draining == 0 && s.looking == 0 && s.raising == 0)
    && (s.ready && s.queued > 0 ==> Raised(s.handle) || Owing(s) > 0)
  }

  lemma StepKeeps(s: State, step: Step)
    requires Inv(s) && Enabled(s, step)
    ensures Inv(Do(s, step))
  {}

  lemma {:induction false} RunKeeps(s: State, steps: seq<Step>, t: State)
    requires Inv(s) && Reaches(s, steps, t)
    ensures Inv(t)
    decreases |steps|
  {
    if steps != [] {
      StepKeeps(s, steps[0]);
      RunKeeps(Do(s, steps[0]), steps[1..], t);
    }
  }

  /** No lost wake-up: whatever the interleaving, once the handle exists a number in the queue means
      the handle is raised or some thread has yet to raise it. */
  lemma NoLostWakeup(s: State, steps: seq<Step>, t: State)
    requires Initial(s) && Reaches(s, steps, t)
    ensures t.ready && t.queued > 0 ==> Raised(t.handle) || Owing(t) > 0
  {
    RunKeeps(s, steps, t);
  }

  /** The steps by which owing threads pay; no thread pushes, pops or begins to wait. */
  predicate Pays(step: Step) {
    !step.Push? && !step.Pop? && !step.FindEmpty? && !step.Create?
  }

  function Left(h: Handle): nat {
    match h
    case Pipe(bytes, _) => bytes
    case Event(up) => if up then 1 else 0
  }

  /** What is left to do, each point weighed above those it leads to. */
  function Debt(s: State): nat {
    Left(s.handle) + 3 * s.pushed + 2 * s.signalling + 5 * s.quieting + 4 * s.draining
    + 3 * s.looking + 2 * s.raising
    + match s.once { case Looks => 3 case MustRaise => 2 case _ => 0 }
  }

  lemma PayingShrinksDebt(s: State, step: Step)
    requires Inv(s) && Enabled(s, step) && Pays(step)
    ensures Debt(Do(s, step)) < Debt(s) && Do(s, step).queued == s.queued && Do(s, step).ready == s.ready
  {}

  /** Threads already under way finish after finitely many steps of their own, however they
      interleave, drains included; when none is left, a queue with a number in it has its handle raised. */
  lemma {:induction false} DebtsArePaid(s: State, steps: seq<Step>, t: State)
    requires Inv(s) && Reaches(s, steps, t) && forall i :: 0 <= i < |steps| ==> Pays(steps[i])
    ensures |steps| <= Debt(s)
    ensures Owing(t) == 0 && s.ready && s.queued > 0 ==> Raised(t.handle)
    ensures Owing(t) > 0 ==> exists step :: Enabled(t, step) && Pays(step)
    decreases |steps|
  {
    if steps == [] {
      if s.pushed > 0 { assert Enabled(s, Signal); }
      else if s.signalling > 0 { assert Enabled(s, RaiseSignal); }
      else if s.draining > 0 { assert Enabled(s, Drain); }
      else if s.looking > 0 { assert Enabled(s, Look); }
      else if s.raising > 0 { assert Enabled(s, RaiseAgain); }
      else if s.once == Looks { assert Enabled(s, FirstLook); }
      else if s.once == MustRaise { assert Enabled(s, FirstRaise); }
    } else {
      StepKeeps(s, steps[0]);
      PayingShrinksDebt(s, steps[0]);
      DebtsArePaid(Do(s, steps[0]), steps[1..], t);
    }
  }

  /** Nobody but waits that found the queue empty is under way, and a thread past its drain left the handle down. */
  ghost predicate OnlyOneWait(s: State) {
    && s.queued == 0 && s.pushed == 0 && s.signalling == 0 && s.raising == 0 && s.once == Over
    && s.quieting + s.draining + s.looking <= 1
    && (s.ready && s.quieting + s.draining == 0 ==> !Raised(s.handle))
  }

  /** Taking until a wait finds nothing lowers the handle again. */
  lemma {:induction false} TakingAllLowers(s: State, steps: seq<Step>, t: State)
    requires OnlyOneWait(s) && Reaches(s, steps, t) && forall i :: 0 <= i < |steps| ==> Pays(steps[i])
    ensures t.ready && t.quieting + t.draining == 0 ==> !Raised(t.handle)
    decreases |steps|
  {
    if steps != [] {
      assert OnlyOneWait(Do(s, steps[0]));
      TakingAllLowers(Do(s, steps[0]), steps[1..], t);
    }
  }

  /** No thread is between two steps. */
  predicate AtRest(s: State) {
    && s.pushed == 0 && s.signalling == 0 && s.quieting == 0 && s.draining == 0 && s.looking == 0 && s.raising == 0
    && s.once == Over
  }

  /** A wait that finds the queue empty, when no other thread is under way, leaves the handle lowered. */
  lemma EmptyWaitLowers(s: State, steps: seq<Step>, t: State)
    requires AtRest(s) && s.queued == 0 && Reaches(Do(s, FindEmpty), steps, t)
    requires forall i :: 0 <= i < |steps| ==> Pays(steps[i])
    ensures t.ready && AtRest(t) ==> !Raised(t.handle)
  {
    TakingAllLowers(Do(s, FindEmpty), steps, t);
  }

  /** Nothing queued, and no thread that has seen a number. */
  predicate Nothing(s: State) {
    && s.queued == 0 && s.pushed == 0 && s.signalling == 0 && s.raising == 0 && s.once != MustRaise
    && Works(s.handle) && !Raised(s.handle)
  }

  /** The handle is not raised for nothing: before the first number is pushed it stays down. */
  lemma {:induction false} NotRaisedForNothing(s: State, steps: seq<Step>, t: State)
    requires Nothing(s) && Reaches(s, steps, t) && Push !in steps
    ensures !Raised(t.handle)
    decreases |steps|
  {
    if steps != [] {
      assert Nothing(Do(s, steps[0]));
      NotRaisedForNothing(Do(s, steps[0]), steps[1..], t);
    }
  }
}
