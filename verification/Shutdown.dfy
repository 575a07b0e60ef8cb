/** Signal handling and the drain of sender tasks. */
module Shutdown {
  import opened Basics

  /** The state shared by the SIGINT and SIGTERM listeners. */
  class SignalHandler {
    var counter: nat
    var cancelled: bool
    var exited: bool

    /** The first signal cancels, the second ends the process. */
    ghost predicate Valid()
      reads this
    {
      (cancelled <==> counter >= 1) && (exited <==> counter >= 2)
    }

    constructor ()
      ensures Valid() && counter == 0
    {
      counter, cancelled, exited := 0, false, false;
    }

    method HandleSignal()
      requires Valid() && !exited
      modifies this
      ensures Valid() && counter == old(counter) + 1 && cancelled
      ensures exited <==> old(cancelled)
    {
      counter := counter + 1;
      if counter == 1 {
        cancelled := true;
      } else {
        exited := true;
      }
    }
  }

  /** A sender task: when it returns (if ever, counted from the start of the drain) and whether
      it returns without an error. */
  datatype Handle = Handle(doneAt: Option<nat>, ok: bool)

  datatype DrainError = SenderFailed(index: nat) | Timeout

  predicate InTime(h: Handle, timeout: nat) {
    h.doneAt.Some? && h.doneAt.value <= timeout
  }

  /** Handles are awaited one after another under a single time limit.  Although the limit covers
      the whole sequence, the outcome depends on each handle separately: the drain succeeds exactly
      when all of them end well in time, and otherwise the first one that does not decides. */
  method GracefulDrainWait(handles: seq<Handle>, timeout: nat) returns (r: Result<nat, DrainError>)
    ensures r.Ok? <==> forall i | 0 <= i < |handles| :: InTime(handles[i], timeout) && handles[i].ok
    ensures r.Ok? ==> r.value <= timeout
    ensures r.Err? && r.error.SenderFailed? ==>
              && r.error.index < |handles|
              && InTime(handles[r.error.index], timeout) && !handles[r.error.index].ok
              && forall j | 0 <= j < r.error.index :: InTime(handles[j], timeout) && handles[j].ok
    ensures r == Err(Timeout) ==>
              exists i :: 0 <= i < |handles| && !InTime(handles[i], timeout)
                && forall j | 0 <= j < i :: InTime(handles[j], timeout) && handles[j].ok
  {
    var elapsed: nat := 0;
    for i := 0 to |handles|
      invariant elapsed <= timeout
      invariant forall j | 0 <= j < i :: InTime(handles[j], timeout) && handles[j].ok
    {
      var h := handles[i];
      if h.doneAt.None? {
        return Err(Timeout);
      }
      if h.doneAt.value > elapsed {
        elapsed := h.doneAt.value;
      }
      if elapsed > timeout {
        return Err(Timeout);
      }
      if !h.ok {
        return Err(SenderFailed(i));
      }
    }
    return Ok(elapsed);
  }
}
