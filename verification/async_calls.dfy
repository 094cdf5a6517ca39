/** The registry of asynchronous calls: what each critical section does to a call. The
    registry object's methods are proved against these functions, and the transition
    system of AsyncRuns interleaves the same functions over any number of threads. */
module AsyncCalls {
  import opened Basics

  /** A call as the registry's lock protects it; frames are abstract byte strings. */
  datatype Call = Call(frame: string, done: bool, dropped: bool, events: seq<string>)

  const NEW_CALL := Call("", false, false, [])

  /** An interim result is kept only while the call is in flight and wanted. */
  predicate Wanted(c: Call) {
    !c.done && !c.dropped
  }

  function WithEvent(c: Call, frame: string): Call
    requires Wanted(c)
  {
    c.(events := c.events + [frame])
  }

  function Finished(c: Call, frame: string): Call {
    c.(frame := frame, done := true)
  }

  function Dropped(c: Call): Call {
    c.(dropped := true)
  }

  /** What a take's critical section does: it returns an event and leaves the rest, or removes
      a finished call, or finds nothing to give. */
  datatype Taken = Event(frame: string, rest: Call) | Final | NotYet

  function Take(c: Call): Taken {
    if c.events != [] then Event(c.events[0], c.(events := c.events[1..]))
    else if c.done then Final
    else NotYet
  }

  /** The mutable record a goroutine and the registry share. */
  class AsyncCall {
    var frame: string
    var done: bool
    var dropped: bool
    var events: seq<string>

    function Value(): Call
      reads this
    {
      Call(frame, done, dropped, events)
    }

    constructor ()
      ensures Value() == NEW_CALL
    {
      frame, done, dropped, events := "", false, false, [];
    }
  }

  class Registry {
    var pending: map<nat, AsyncCall>

    /** Every number has a record of its own. */
    ghost predicate Valid()
      reads this
    {
      forall i, j :: i in pending && j in pending && pending[i] == pending[j] ==> i == j
    }

    function View(): map<nat, Call>
      reads this, pending.Values
    {
      map rid | rid in pending :: pending[rid].Value()
    }

    constructor ()
      ensures Valid() && View() == map[]
    {
      pending := map[];
    }

    /** startAsyncWith registers the call before its goroutine exists. */
    method Register(rid: nat) returns (call: AsyncCall)
      requires Valid() && rid !in pending
      modifies this
      ensures Valid() && fresh(call) && pending == old(pending)[rid := call]
      ensures View() == old(View())[rid := NEW_CALL]
    {
      call := new AsyncCall();
      pending := pending[rid := call];
    }

    /** interimSender's critical section. */
    method Interim(rid: nat, frame: string) returns (ok: bool)
      requires Valid()
      modifies pending.Values
      ensures Valid()
      ensures ok == (rid in old(View()) && Wanted(old(View())[rid]))
      ensures View() == if ok then old(View())[rid := WithEvent(old(View())[rid], frame)] else old(View())
    {
      if rid !in pending {
        return false;
      }
      var call := pending[rid];
      ok := !call.done && !call.dropped;
      if ok {
        call.events := call.events + [frame];
      }
    }

    /** The goroutine's end: it still holds its record, and unregisters it if nobody waits. */
    method Finish(rid: nat, call: AsyncCall, payload: string) returns (dropped: bool)
      requires Valid() && rid in pending && pending[rid] == call
      modifies this, call
      ensures Valid() && dropped == old(call.dropped)
      ensures call.Value() == Finished(old(call.Value()), payload)
      ensures View() == if dropped then old(View()) - {rid}
                        else old(View())[rid := Finished(old(View())[rid], payload)]
    {
      call.frame, call.done := payload, true;
      dropped := call.dropped;
      if dropped {
        pending := pending - {rid};
      }
    }

    /** curlpro_result_take's critical section; call.done is read again after it. */
    method TakeLocked(rid: nat) returns (call: AsyncCall?, event: Option<string>)
      requires Valid()
      modifies this, pending.Values
      ensures Valid()
      ensures call == if rid in old(pending) then old(pending)[rid] else null
      ensures event == if call == null then None else
                         match Take(old(View())[rid])
                         case Event(frame, _) => Some(frame)
                         case _ => None
      ensures View() == if call == null then old(View()) else
                          match Take(old(View())[rid])
                          case Event(_, rest) => old(View())[rid := rest]
                          case Final => old(View()) - {rid}
                          case NotYet => old(View())
    {
      event := None;
      if rid !in pending {
        return null, None;
      }
      call := pending[rid];
      if |call.events| > 0 {
        event := Some(call.events[0]);
        call.events := call.events[1..];
      } else if call.done {
        pending := pending - {rid};
      }
    }

    /** curlpro_request_cancel's critical section: a call in flight is marked, a finished one is
        removed and its frame handed to discard. */
    method CancelLocked(rid: nat) returns (discard: bool, frame: string)
      requires Valid()
      modifies this, pending.Values
      ensures Valid()
      ensures discard == (rid in old(View()) && old(View())[rid].done)
      ensures discard ==> frame == old(View())[rid].frame
      ensures View() == if rid !in old(View()) then old(View())
                        else if discard then old(View()) - {rid}
                        else old(View())[rid := Dropped(old(View())[rid])]
    {
      discard, frame := false, "";
      if rid in pending {
        var call := pending[rid];
        if !call.done {
          call.dropped := true;
        } else {
          discard, frame := true, call.frame;
          pending := pending - {rid};
        }
      }
    }
  }
}
